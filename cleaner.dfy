/**
 * The deductor-name cleaner `clean_deductor_name`: four substitutions that strip
 * known noise, each followed by `strip()`, then a rejection test on length and on
 * placeholder values.
 */
module NameCleaner {
  import opened Wrappers
  import opened PyText

  /** `Token Number|Deductor/Collector`, in alternation order. */
  const BoilerplateNoise: seq<string> := ["Token Number", "Deductor/Collector"]

  const QuotedNoise: seq<string> := ["be quoted on TDS"]

  /** Values that are never accepted as a name. */
  const Placeholders: seq<string> := ["0", "NA", "None", ""]

  const MinLength := 3
  const MaxLength := 100

  /** `[A-Z0-9]` */
  predicate IsUpperOrDigit(c: char) { IsUpper(c) || IsDigit(c) }

  /** Length of the match of `\s+NA\s+QVZ[A-Z0-9]+` at the start of `s`, 0 when none.
      Every quantifier is greedy and none can give anything back, so the match is unique. */
  function ReceiptTailAt(s: string): (n: nat)
    ensures n <= |s|
    ensures n > 0 ==> 8 <= n && IsSpace(s[0])
  {
    var a := Run(s, IsSpace);
    if a == 0 || !StartsWith(s[a..], "NA") then 0
    else
      var q := CodeTailAt(s[a + 2..]);
      if q == 0 then 0 else a + 2 + q
  }

  /** Length of the match of `\s+QVZ[A-Z0-9]+` at the start of `s`, 0 when none. */
  function CodeTailAt(s: string): (n: nat)
    ensures n <= |s|
    ensures n > 0 ==> 5 <= n && IsSpace(s[0])
  {
    var b := Run(s, IsSpace);
    if b == 0 || !StartsWith(s[b..], "QVZ") then 0
    else
      var c := Run(s[b + 3..], IsUpperOrDigit);
      if c == 0 then 0 else b + 3 + c
  }

  /** No position of `s` starts a `\s+NA\s+QVZ[A-Z0-9]+` match. */
  predicate NoReceiptTail(s: string) {
    forall i | 0 <= i <= |s| :: ReceiptTailAt(s[i..]) == 0
  }

  /** `re.sub(r'\s+NA\s+QVZ[A-Z0-9]+', '', s)` */
  function RemoveReceiptTails(s: string): (r: string)
    decreases |s|
    ensures |r| <= |s|
    ensures NoReceiptTail(s) ==> r == s
  {
    if s == [] then ""
    else
      var n := ReceiptTailAt(s);
      assert s[0..] == s;
      if n > 0 then RemoveReceiptTails(s[n..])
      else
        NoReceiptTailRest(s);
        [s[0]] + RemoveReceiptTails(s[1..])
  }

  lemma {:induction false} NoReceiptTailRest(s: string)
    requires s != []
    ensures NoReceiptTail(s) ==> NoReceiptTail(s[1..])
  {
    if NoReceiptTail(s) {
      forall i | 0 <= i <= |s[1..]| ensures ReceiptTailAt(s[1..][i..]) == 0 {
        assert s[1..][i..] == s[i + 1..];
      }
    }
  }

  /** Length of the text matched by `\s+\d+$` (whitespace, then digits up to the end or up
      to a final newline), 0 when there is no match. */
  function NumberSuffix(s: string): (n: nat)
    ensures n <= |s|
  {
    var body := if s != [] && s[|s| - 1] == '\n' then s[..|s| - 1] else s;
    var d := RunBack(body, IsDigit);
    var w := RunBack(body[..|body| - d], IsSpace);
    if d > 0 && w > 0 then d + w else 0
  }

  /** `re.sub(r'\s+\d+$', '', s)`: one trailing whitespace-separated number is dropped;
      a final newline after it is kept. */
  function DropTrailingNumber(s: string): (r: string)
    ensures NumberSuffix(s) == 0 ==> r == s
    ensures NumberSuffix(s) > 0 ==> |r| == |s| - NumberSuffix(s)
    ensures |r| <= |s|
  {
    var n := NumberSuffix(s);
    if n == 0 then s
    else if s[|s| - 1] == '\n' then s[..|s| - 1 - n] + "\n"
    else s[..|s| - n]
  }

  /** The text after the four substitutions of pdf_extractor.py:125-134. */
  function Denoised(name: string): (r: string)
    ensures IsStripped(r)
    ensures |r| <= |name|
  {
    NoiseLengths();
    var a := Strip(RemoveAll(name, BoilerplateNoise));
    var b := Strip(RemoveReceiptTails(a));
    var c := Strip(RemoveAll(b, QuotedNoise));
    Strip(DropTrailingNumber(c))
  }

  /** The lengths of the noise alternatives; in particular none is empty, as `RemoveAll`
      needs. */
  lemma {:induction false} NoiseLengths()
    ensures |BoilerplateNoise| == 2 && |BoilerplateNoise[0]| == 12 && |BoilerplateNoise[1]| == 18
    ensures |QuotedNoise| == 1 && |QuotedNoise[0]| == 16
    ensures forall k | 0 <= k < |BoilerplateNoise| :: BoilerplateNoise[k] != ""
    ensures forall k | 0 <= k < |QuotedNoise| :: QuotedNoise[k] != ""
  {
  }

  predicate Rejected(s: string) {
    |s| < MinLength || s in Placeholders || |s| > MaxLength
  }

  /**
   * `clean_deductor_name(name)`. `None` is `None`; an empty name is returned as it is
   * (Python's `if not name: return name`).
   */
  function CleanDeductorName(name: string): (r: Option<string>)
    ensures name == "" ==> r == Some("")
    ensures name != "" ==> (r.None? <==> Rejected(Denoised(name)))
  {
    if name == "" then Some(name)
    else
      var s := Denoised(name);
      if Rejected(s) then None else Some(s)
  }

  /** A name the cleaner accepts is between 3 and 100 characters, is not a placeholder,
      and has no leading or trailing whitespace. */
  lemma {:induction false} CleanedNameShape(name: string)
    requires name != ""
    requires CleanDeductorName(name).Some?
    ensures var r := CleanDeductorName(name).value;
      MinLength <= |r| <= MaxLength && r !in Placeholders && IsStripped(r)
  {
  }

  /** A non-empty stripped name in which none of the first three substitutions finds
      anything to remove. */
  predicate NoNoise(s: string) {
    && s != []
    && IsStripped(s)
    && (forall k | 0 <= k < |BoilerplateNoise| :: !Contains(BoilerplateNoise[k], s))
    && NoReceiptTail(s)
    && !Contains(QuotedNoise[0], s)
  }

  /** A name with nothing for the cleaner to remove and of acceptable length. */
  predicate IsCleanName(s: string) {
    && NoNoise(s)
    && MinLength <= |s| <= MaxLength
    && s !in Placeholders
    && NumberSuffix(s) == 0
  }

  /** The cleaner leaves an already clean name unchanged. */
  lemma {:induction false} CleanKeepsCleanName(s: string)
    requires IsCleanName(s)
    ensures CleanDeductorName(s) == Some(s)
  {
    DenoisedKeeps(s);
  }

  lemma {:induction false} DenoisedKeeps(s: string)
    requires NoNoise(s) && NumberSuffix(s) == 0
    ensures Denoised(s) == s
  {
    assert RemoveAll(s, BoilerplateNoise) == s;
    assert RemoveReceiptTails(s) == s;
    assert forall k | 0 <= k < |QuotedNoise| :: !Contains(QuotedNoise[k], s);
    assert RemoveAll(s, QuotedNoise) == s;
    assert DropTrailingNumber(s) == s;
  }

  lemma {:induction false} ContainsNeedsRoom(needle: string, hay: string)
    requires |needle| > |hay|
    ensures !Contains(needle, hay)
    decreases |hay|
  {
    if hay != [] { ContainsNeedsRoom(needle, hay[1..]); }
  }

  lemma {:induction false} NoTailWithoutSpace(s: string)
    requires NoSpace(s)
    ensures NoReceiptTail(s)
  {
    forall i | 0 <= i <= |s| ensures ReceiptTailAt(s[i..]) == 0 {
      if i < |s| { assert s[i..][0] == s[i]; }
    }
  }

  /** Placeholder values are rejected, except the empty name, which comes back as it is. */
  lemma {:induction false} CleanRejectsPlaceholders()
    ensures CleanDeductorName("0") == None
    ensures CleanDeductorName("NA") == None
    ensures CleanDeductorName("None") == None
    ensures CleanDeductorName("") == Some("")
  {
    assert |Denoised("0")| <= 1 && |Denoised("NA")| <= 2;
    DenoisedNone();
  }

  lemma {:induction false} DenoisedNone()
    ensures Denoised("None") == "None"
  {
    var s := "None";
    NoiseLengths();
    ContainsNeedsRoom(BoilerplateNoise[0], s);
    ContainsNeedsRoom(BoilerplateNoise[1], s);
    ContainsNeedsRoom(QuotedNoise[0], s);
    assert NoSpace(s);
    NoTailWithoutSpace(s);
    assert !IsDigit(s[3]);
    assert NumberSuffix(s) == 0;
    assert forall k | 0 <= k < |BoilerplateNoise| :: !Contains(BoilerplateNoise[k], s);
    DenoisedKeeps(s);
  }

  /** Only one trailing number is removed per call, so cleaning a cleaned name can change
      it again: the cleaner is not idempotent. */
  lemma {:induction false} CleanNotIdempotent(s: string, t: string)
    requires s == "ACME 1 2" && t == "ACME 1"
    ensures CleanDeductorName(s) == Some(t)
    ensures CleanDeductorName(t) == Some("ACME")
    ensures CleanDeductorName(CleanDeductorName(s).value) != CleanDeductorName(s)
  {
    CleanDropsLastNumber(s, t, "2");
    CleanDropsLastNumber(t, "ACME", "1");
  }

  /** `ACME 12`, `ACME 1 2` and `ACME 1` each lose their last number. */
  lemma {:induction false} CleanDropsLastNumber(s: string, t: string, d: string)
    requires || (s == "ACME 12" && t == "ACME" && d == "12")
             || (s == "ACME 1 2" && t == "ACME 1" && d == "2")
             || (s == "ACME 1" && t == "ACME" && d == "1")
    ensures CleanDeductorName(s) == Some(t)
  {
    assert s == t + " " + d;
    ShortNameDropsNumber(t, d);
  }

  /** Cleaning a short name with no `Q`, a space and a number gives back the name. */
  lemma {:induction false} ShortNameDropsNumber(p: string, d: string)
    requires MinLength <= |p| <= 6 && IsStripped(p) && p !in Placeholders
    requires forall k | 0 <= k < |p| :: p[k] != 'Q'
    requires d != [] && forall k | 0 <= k < |d| :: IsDigit(d[k])
    ensures CleanDeductorName(p + " " + d) == Some(p)
  {
    ShortNoNoise(p);
    CleanDropsNumber(p, " ", d);
  }

  /** A stripped name of at most eight characters without `Q` has no noise at all. */
  lemma {:induction false} ShortNoNoise(s: string)
    requires 0 < |s| <= 8 && IsStripped(s)
    requires forall k | 0 <= k < |s| :: s[k] != 'Q'
    ensures NoNoise(s)
  {
    NoiseLengths();
    ContainsNeedsRoom(BoilerplateNoise[0], s);
    ContainsNeedsRoom(BoilerplateNoise[1], s);
    ContainsNeedsRoom(QuotedNoise[0], s);
    NoTailWithoutQ(s);
  }

  /** Without a `Q` there is no `QVZ`, so no receipt tail can start anywhere. */
  lemma {:induction false} NoTailWithoutQ(s: string)
    requires forall k | 0 <= k < |s| :: s[k] != 'Q'
    ensures NoReceiptTail(s)
  {
    forall i | 0 <= i <= |s| ensures ReceiptTailAt(s[i..]) == 0 {
      NoTailAtWithoutQ(s[i..]);
    }
  }

  lemma {:induction false} NoTailAtWithoutQ(t: string)
    requires forall k | 0 <= k < |t| :: t[k] != 'Q'
    ensures ReceiptTailAt(t) == 0
  {
    var a := Run(t, IsSpace);
    if 0 < a && StartsWith(t[a..], "NA") {
      NoCodeWithoutQ(t[a + 2..]);
    }
  }

  lemma {:induction false} NoCodeWithoutQ(r: string)
    requires forall k | 0 <= k < |r| :: r[k] != 'Q'
    ensures CodeTailAt(r) == 0
  {
    var b := Run(r, IsSpace);
    if b < |r| {
      assert r[b..][0] == r[b];
    }
  }

  /** `\s+\d+$` takes the whole whitespace run and the whole digit run at the end. */
  lemma {:induction false} DropTrailingDigits(p: string, w: string, d: string)
    requires p == [] || !IsSpace(p[|p| - 1])
    requires w != [] && AllSpace(w)
    requires d != [] && forall k | 0 <= k < |d| :: IsDigit(d[k])
    ensures DropTrailingNumber(p + w + d) == p
  {
    var s := p + w + d;
    assert s[|s| - 1] == d[|d| - 1];
    assert !IsDigit(w[|w| - 1]);
    RunBackOfSuffix(p + w, d, IsDigit);
    assert s[..|s| - |d|] == p + w;
    RunBackOfSuffix(p, w, IsSpace);
    assert s[..|s| - (|w| + |d|)] == p;
  }

  /** A first non-space character that is not `Q`: no `\s+QVZ` can start there. */
  predicate NoCodeAhead(v: string) {
    v != [] && IsSpace(v[0]) && (Run(v, IsSpace) == |v| || v[Run(v, IsSpace)] != 'Q')
  }

  /** The match of `\s+NA\s+QVZ[A-Z0-9]+` at the start of `u` is not changed by what
      follows `u`, when `u` ends in a non-space and what follows starts with whitespace
      that is not followed by `Q`. */
  lemma {:induction false} ReceiptTailLocal(u: string, v: string)
    requires u != [] && !IsSpace(u[|u| - 1]) && NoCodeAhead(v)
    ensures ReceiptTailAt(u + v) == ReceiptTailAt(u)
  {
    var a := Run(u, IsSpace);
    assert Run(u + v, IsSpace) == a by {
      RunAppend(u, v, IsSpace);
    }
    if 0 < a {
      ReceiptTailAfterSpace(u, v, a);
    }
  }

  lemma {:induction false} ReceiptTailAfterSpace(u: string, v: string, a: nat)
    requires u != [] && !IsSpace(u[|u| - 1]) && NoCodeAhead(v)
    requires 0 < a == Run(u, IsSpace) == Run(u + v, IsSpace)
    ensures ReceiptTailAt(u + v) == ReceiptTailAt(u)
  {
    var s := u + v;
    if a + 2 <= |u| {
      assert StartsWith(s[a..], "NA") == StartsWith(u[a..], "NA") by {
        assert s[a..][..2] == u[a..][..2];
      }
      if StartsWith(u[a..], "NA") {
        ReceiptTailAfterNA(u, v, a);
      }
    } else {
      assert !StartsWith(s[a..], "NA") by {
        assert s[a..][1] == v[0];
      }
    }
  }

  lemma {:induction false} ReceiptTailAfterNA(u: string, v: string, a: nat)
    requires u != [] && !IsSpace(u[|u| - 1]) && NoCodeAhead(v)
    requires 0 < a == Run(u, IsSpace) == Run(u + v, IsSpace) && a + 2 <= |u|
    requires StartsWith(u[a..], "NA") && StartsWith((u + v)[a..], "NA")
    ensures ReceiptTailAt(u + v) == ReceiptTailAt(u)
  {
    AfterHead(u, v, a + 2);
    CodeTailLocal(u[a + 2..], v);
  }

  /** What is left of `u + v` after a prefix of `u`. */
  lemma {:induction false} AfterHead(u: string, v: string, m: nat)
    requires m <= |u| && u != [] && !IsSpace(u[|u| - 1])
    ensures (u + v)[m..] == u[m..] + v
    ensures u[m..] == [] || !IsSpace(u[m..][|u[m..]| - 1])
  {
    assert (u + v)[m..] == u[m..] + v;
    if m < |u| {
      assert u[m..][|u| - m - 1] == u[|u| - 1];
    }
  }

  /** The same for `\s+QVZ[A-Z0-9]+`, where `u` may also be empty. */
  lemma {:induction false} CodeTailLocal(u: string, v: string)
    requires u == [] || !IsSpace(u[|u| - 1])
    requires NoCodeAhead(v)
    ensures CodeTailAt(u + v) == CodeTailAt(u)
  {
    if u == [] {
      assert u + v == v;
      NoCodeAt(v);
    } else {
      CodeTailHead(u, v);
    }
  }

  lemma {:induction false} NoCodeAt(v: string)
    requires NoCodeAhead(v)
    ensures CodeTailAt(v) == 0
  {
    var b := Run(v, IsSpace);
    if b < |v| {
      assert v[b..][0] == v[b];
    }
  }

  lemma {:induction false} CodeTailHead(u: string, v: string)
    requires u != [] && !IsSpace(u[|u| - 1])
    requires NoCodeAhead(v)
    ensures CodeTailAt(u + v) == CodeTailAt(u)
  {
    var s := u + v;
    var b := Run(u, IsSpace);
    assert Run(s, IsSpace) == b by {
      RunAppend(u, v, IsSpace);
    }
    if 0 < b {
      if b + 3 <= |u| {
        assert StartsWith(s[b..], "QVZ") == StartsWith(u[b..], "QVZ") by {
          assert s[b..][..3] == u[b..][..3];
        }
        if StartsWith(u[b..], "QVZ") {
          CodeRunLocal(u, v, b + 3);
        }
      } else {
        assert !StartsWith(s[b..], "QVZ") by {
          assert s[b..][|u| - b] == v[0];
        }
      }
    }
  }

  /** The `[A-Z0-9]+` run after `QVZ` stops before the whitespace that starts `v`. */
  lemma {:induction false} CodeRunLocal(u: string, v: string, m: nat)
    requires m <= |u| && v != [] && IsSpace(v[0])
    ensures Run((u + v)[m..], IsUpperOrDigit) == Run(u[m..], IsUpperOrDigit)
  {
    assert (u + v)[m..] == u[m..] + v;
    assert !IsUpperOrDigit(v[0]);
    RunStops(u[m..], v, IsUpperOrDigit);
  }

  /** The receipt-tail removal keeps a head without tails whole and continues after it,
      when the head ends in a non-space and the rest starts with whitespace not followed
      by `Q`. */
  lemma {:induction false} RemoveReceiptTailsHead(u: string, t: string)
    requires NoReceiptTail(u) && (u == [] || !IsSpace(u[|u| - 1]))
    requires NoCodeAhead(t)
    ensures RemoveReceiptTails(u + t) == u + RemoveReceiptTails(t)
    decreases |u|
  {
    if u == [] {
      assert u + t == t;
    } else {
      HeadStep(u, t);
      ConsParts(u, []);
      RemoveReceiptTailsHead(u[1..], t);
      ConsParts(u, RemoveReceiptTails(t));
    }
  }

  /** The first character of such a head is kept and the removal continues after it. */
  lemma {:induction false} HeadStep(u: string, t: string)
    requires u != [] && NoReceiptTail(u) && !IsSpace(u[|u| - 1])
    requires NoCodeAhead(t)
    ensures RemoveReceiptTails(u + t) == [u[0]] + RemoveReceiptTails(u[1..] + t)
    ensures NoReceiptTail(u[1..])
  {
    var s := u + t;
    assert ReceiptTailAt(s) == 0 by {
      assert u[0..] == u;
      ReceiptTailLocal(u, t);
    }
    KeepFirst(s);
    ConsParts(u, t);
    NoReceiptTailRest(u);
  }

  /** Where no tail starts, the first character is kept. */
  lemma {:induction false} KeepFirst(s: string)
    requires s != [] && ReceiptTailAt(s) == 0
    ensures RemoveReceiptTails(s) == [s[0]] + RemoveReceiptTails(s[1..])
  {
  }

  /** `\s+NA\s+QVZ[A-Z0-9]+` matches the whole of such a tail, which is then removed. */
  lemma {:induction false} ReceiptTailWhole(w: string, w2: string, x: string)
    requires w != [] && AllSpace(w) && w2 != [] && AllSpace(w2)
    requires x != [] && forall k | 0 <= k < |x| :: IsUpperOrDigit(x[k])
    ensures ReceiptTailAt(w + ("NA" + (w2 + ("QVZ" + x)))) == |w + ("NA" + (w2 + ("QVZ" + x)))|
    ensures RemoveReceiptTails(w + ("NA" + (w2 + ("QVZ" + x)))) == ""
  {
    var r := w2 + ("QVZ" + x);
    var t := w + ("NA" + r);
    CodeTailWhole(w2, x);
    RunOfPrefix(w, "NA" + r, IsSpace);
    assert t[|w|..] == "NA" + r;
    assert t[|w| + 2..] == r;
    assert t[|t|..] == [];
  }

  /** `\s+QVZ[A-Z0-9]+` matches the whole of `w2 + ("QVZ" + x)`. */
  lemma {:induction false} CodeTailWhole(w2: string, x: string)
    requires w2 != [] && AllSpace(w2)
    requires x != [] && forall k | 0 <= k < |x| :: IsUpperOrDigit(x[k])
    ensures CodeTailAt(w2 + ("QVZ" + x)) == |w2| + 3 + |x|
  {
    var r := w2 + ("QVZ" + x);
    RunOfPrefix(w2, "QVZ" + x, IsSpace);
    assert r[|w2|..] == "QVZ" + x;
    assert r[|w2| + 3..] == x + [];
    RunOfPrefix(x, [], IsUpperOrDigit);
  }

  /** The boilerplate phrases both end in `r`, so appending text without an `r` to a name
      without them adds none. */
  lemma {:induction false} NoBoilerplateAppend(p: string, t: string)
    requires forall k | 0 <= k < |BoilerplateNoise| :: !Contains(BoilerplateNoise[k], p)
    requires forall k | 0 <= k < |t| :: t[k] != 'r'
    ensures forall k | 0 <= k < |BoilerplateNoise| :: !Contains(BoilerplateNoise[k], p + t)
  {
    NoiseLengths();
    NotContainsAppend(BoilerplateNoise[0], p, t);
    NotContainsAppend(BoilerplateNoise[1], p, t);
  }

  /** The first two substitutions on a name with no noise followed by text that ends in
      a non-space, holds no `r` and has no `QVZ` right after its leading whitespace: the
      name is left alone and the receipt-tail removal goes on in the appended text. */
  lemma {:induction false} FirstStepsOnHead(p: string, t: string)
    requires NoNoise(p) && NoCodeAhead(t) && !IsSpace(t[|t| - 1])
    requires forall k | 0 <= k < |t| :: t[k] != 'r'
    ensures IsStripped(p + t) && Strip(RemoveAll(p + t, BoilerplateNoise)) == p + t
    ensures RemoveReceiptTails(p + t) == p + RemoveReceiptTails(t)
  {
    var s := p + t;
    NoBoilerplateAppend(p, t);
    assert RemoveAll(s, BoilerplateNoise) == s;
    assert IsStripped(s) by {
      assert s[0] == p[0] && s[|s| - 1] == t[|t| - 1];
    }
    RemoveReceiptTailsHead(p, t);
  }

  /** The four substitutions on `s`, one at a time. */
  lemma {:induction false} DenoisedSteps(s: string, a: string, b: string)
    requires a == Strip(RemoveAll(s, BoilerplateNoise))
    requires b == Strip(RemoveReceiptTails(a))
    ensures Denoised(s) == Strip(DropTrailingNumber(Strip(RemoveAll(b, QuotedNoise))))
  {
  }

  /** Seen from a name with no noise, the last two substitutions are all that is left. */
  lemma {:induction false} DenoisedOfNoNoise(p: string)
    requires NoNoise(p)
    ensures Strip(RemoveAll(p, QuotedNoise)) == p
    ensures Denoised(p) == Strip(DropTrailingNumber(p))
  {
    assert RemoveAll(p, BoilerplateNoise) == p;
    assert RemoveReceiptTails(p) == p;
    assert forall k | 0 <= k < |QuotedNoise| :: !Contains(QuotedNoise[k], p);
    assert RemoveAll(p, QuotedNoise) == p;
    DenoisedSteps(p, p, p);
  }

  /**
   * A receipt-number tail `\s+NA\s+QVZ[A-Z0-9]+` after a name with no noise is cut off
   * and the rest of the cleaning sees the name alone; a name that also has no trailing
   * number comes back unchanged.
   */
  lemma {:induction false} DenoisedDropsReceiptTail(p: string, w: string, w2: string, x: string)
    requires NoNoise(p)
    requires w != [] && AllSpace(w) && w2 != [] && AllSpace(w2)
    requires x != [] && forall k | 0 <= k < |x| :: IsUpperOrDigit(x[k])
    ensures Denoised(p + w + "NA" + w2 + "QVZ" + x) == Denoised(p)
    ensures NumberSuffix(p) == 0 ==> Denoised(p + w + "NA" + w2 + "QVZ" + x) == p
  {
    var t := w + ("NA" + (w2 + ("QVZ" + x)));
    var s := p + t;
    ReceiptTailShape(p, w, w2, x);
    ReceiptTailWhole(w, w2, x);
    FirstStepsOnHead(p, t);
    assert p + RemoveReceiptTails(t) == p;
    DenoisedSteps(s, s, p);
    DenoisedOfNoNoise(p);
    assert Denoised(s) == Denoised(p);
    if NumberSuffix(p) == 0 {
      DenoisedKeeps(p);
    }
  }

  /** The receipt tail, regrouped, and the facts about its characters that the first two
      substitutions need. */
  lemma {:induction false} ReceiptTailShape(p: string, w: string, w2: string, x: string)
    requires w != [] && AllSpace(w) && w2 != [] && AllSpace(w2)
    requires x != [] && forall k | 0 <= k < |x| :: IsUpperOrDigit(x[k])
    ensures var t := w + ("NA" + (w2 + ("QVZ" + x)));
      p + w + "NA" + w2 + "QVZ" + x == p + t
      && NoCodeAhead(t) && !IsSpace(t[|t| - 1]) && forall k | 0 <= k < |t| :: t[k] != 'r'
  {
    var t := w + ("NA" + (w2 + ("QVZ" + x)));
    assert p + w + "NA" + w2 + "QVZ" + x == p + t;
    RunOfPrefix(w, "NA" + (w2 + ("QVZ" + x)), IsSpace);
    assert t[|w|] == 'N';
    assert t[|t| - 1] == x[|x| - 1];
    forall k | 0 <= k < |t| ensures t[k] != 'r' {
      if k >= |w| + 2 + |w2| + 3 {
        assert t[k] == x[k - |w| - 2 - |w2| - 3];
      }
    }
  }

  /** A whitespace-separated number after a name with no noise is dropped, and only that. */
  lemma {:induction false} DenoisedDropsNumber(p: string, w: string, d: string)
    requires NoNoise(p)
    requires w != [] && AllSpace(w)
    requires d != [] && forall k | 0 <= k < |d| :: IsDigit(d[k])
    ensures Denoised(p + w + d) == p
  {
    var t := w + d;
    var s := p + t;
    NumberTailShape(p, w, d);
    FirstStepsOnHead(p, t);
    assert RemoveReceiptTails(t) == t by {
      NoTailWithoutQ(t);
    }
    QuotedKept(p, t);
    DenoisedSteps(s, s, s);
    DropTrailingDigits(p, w, d);
    assert Denoised(s) == p;
  }

  /** The number tail, regrouped, and the facts about its characters that the first three
      substitutions need. */
  lemma {:induction false} NumberTailShape(p: string, w: string, d: string)
    requires w != [] && AllSpace(w)
    requires d != [] && forall k | 0 <= k < |d| :: IsDigit(d[k])
    ensures p + w + d == p + (w + d)
    ensures NoCodeAhead(w + d) && !IsSpace((w + d)[|w + d| - 1])
    ensures forall k | 0 <= k < |w + d| :: (w + d)[k] != 'r' && (w + d)[k] != 'Q' && (w + d)[k] != 'S'
  {
    var t := w + d;
    assert p + w + d == p + t;
    RunOfPrefix(w, d, IsSpace);
    assert t[|w|] == d[0];
    assert t[|t| - 1] == d[|d| - 1];
  }

  /** The quoted phrase ends in `S`, so appending text without an `S` to a name without
      the phrase leaves the third substitution nothing to remove. */
  lemma {:induction false} QuotedKept(p: string, t: string)
    requires !Contains(QuotedNoise[0], p)
    requires forall k | 0 <= k < |t| :: t[k] != 'S'
    ensures RemoveAll(p + t, QuotedNoise) == p + t
  {
    NoiseLengths();
    NotContainsAppend(QuotedNoise[0], p, t);
    assert forall k | 0 <= k < |QuotedNoise| :: !Contains(QuotedNoise[k], p + t);
  }

  /** Cleaning a name with no noise and of acceptable length, followed by a
      whitespace-separated number, gives back the name. */
  lemma {:induction false} CleanDropsNumber(p: string, w: string, d: string)
    requires NoNoise(p) && !Rejected(p)
    requires w != [] && AllSpace(w)
    requires d != [] && forall k | 0 <= k < |d| :: IsDigit(d[k])
    ensures CleanDeductorName(p + w + d) == Some(p)
  {
    DenoisedDropsNumber(p, w, d);
  }

  /** A name followed by a receipt-number tail, as it comes out of the acknowledgement's
      name row, is cleaned to the name alone. */
  lemma {:induction false} CleanDropsReceiptTailExample(s: string, p: string)
    requires s == "EXAMPLE REALTORS LLP NA QVZABCDE" && p == "EXAMPLE REALTORS LLP"
    ensures CleanDeductorName(s) == Some(p)
  {
    var sp, x := ExampleParts(s, p);
    ExampleNameNoNoise(p);
    ExampleNameAccepted(p);
    CleanDropsReceiptTail(p, sp, sp, x);
  }

  lemma {:induction false} ExampleNameAccepted(p: string)
    requires p == "EXAMPLE REALTORS LLP"
    ensures !Rejected(p)
  {
    assert |p| == 20;
  }

  /** The example, cut into the name, the whitespace around `NA` and the code after `QVZ`. */
  lemma {:induction false} ExampleParts(s: string, p: string) returns (sp: string, x: string)
    requires s == "EXAMPLE REALTORS LLP NA QVZABCDE" && p == "EXAMPLE REALTORS LLP"
    ensures s == p + sp + "NA" + sp + "QVZ" + x
    ensures sp != [] && AllSpace(sp)
    ensures x != [] && forall k | 0 <= k < |x| :: IsUpperOrDigit(x[k])
  {
    sp, x := " ", "ABCDE";
  }

  /** Cleaning a name with no noise, no trailing number and of acceptable length,
      followed by a receipt-number tail, gives back the name. */
  lemma {:induction false} CleanDropsReceiptTail(p: string, w: string, w2: string, x: string)
    requires NoNoise(p) && NumberSuffix(p) == 0 && !Rejected(p)
    requires w != [] && AllSpace(w) && w2 != [] && AllSpace(w2)
    requires x != [] && forall k | 0 <= k < |x| :: IsUpperOrDigit(x[k])
    ensures CleanDeductorName(p + w + "NA" + w2 + "QVZ" + x) == Some(p)
  {
    DenoisedDropsReceiptTail(p, w, w2, x);
  }

  lemma {:induction false} ExampleNameNoNoise(p: string)
    requires p == "EXAMPLE REALTORS LLP"
    ensures NoNoise(p) && NumberSuffix(p) == 0
  {
    assert p != [] && IsStripped(p);
    assert forall k | 0 <= k < |p| :: p[k] != 'r' && p[k] != 'b' && p[k] != 'Q';
    NoNoiseWithout(p);
    assert !IsDigit(p[|p| - 1]) && p[|p| - 1] != '\n';
  }

  /** A stripped name with no `r`, no `b` and no `Q` holds neither noise phrase (each has
      an `r` or a `b`) nor a receipt tail (which needs `QVZ`). */
  lemma {:induction false} NoNoiseWithout(p: string)
    requires p != [] && IsStripped(p)
    requires forall k | 0 <= k < |p| :: p[k] != 'r' && p[k] != 'b' && p[k] != 'Q'
    ensures NoNoise(p)
  {
    NoiseLengths();
    NotContainsMissing(BoilerplateNoise[0], p, 11);
    NotContainsMissing(BoilerplateNoise[1], p, 17);
    assert forall k | 0 <= k < |BoilerplateNoise| :: !Contains(BoilerplateNoise[k], p);
    NotContainsMissing(QuotedNoise[0], p, 0);
    NoTailWithoutQ(p);
  }

  /** A boilerplate phrase at the front is the alternative the first substitution finds
      there, so it is deleted. */
  lemma {:induction false} BoilerplateAtFront(k: nat, t: string)
    requires k < |BoilerplateNoise|
    ensures RemoveAll(BoilerplateNoise[k] + t, BoilerplateNoise) == RemoveAll(t, BoilerplateNoise)
  {
    NoiseLengths();
    var b := BoilerplateNoise[k];
    var s := b + t;
    assert s[..|b|] == b;
    if k == 1 {
      assert s[0] == b[0] == 'D';
      assert !StartsWith(s, BoilerplateNoise[0]) by {
        assert s[..12][0] == s[0];
      }
    }
    assert FirstPrefix(s, BoilerplateNoise) == Some(b);
    assert s[|b|..] == t;
  }

  /**
   * A leading "Token Number" or "Deductor/Collector" and the whitespace after it are
   * removed: the rest of the cleaning sees the name alone.
   */
  lemma {:induction false} DenoisedDropsBoilerplate(k: nat, w: string, p: string)
    requires k < |BoilerplateNoise|
    requires AllSpace(w) && IsStripped(p)
    requires forall j | 0 <= j < |BoilerplateNoise| :: !Contains(BoilerplateNoise[j], p)
    ensures Denoised(BoilerplateNoise[k] + w + p) == Denoised(p)
  {
    var s := BoilerplateNoise[k] + w + p;
    BoilerplateStep(k, w, p);
    assert Strip(RemoveAll(p, BoilerplateNoise)) == p;
    var b := Strip(RemoveReceiptTails(p));
    DenoisedSteps(s, p, b);
    DenoisedSteps(p, p, b);
  }

  /** The first substitution and its strip turn a leading boilerplate phrase, whitespace
      and a stripped text without boilerplate into that text. */
  lemma {:induction false} BoilerplateStep(k: nat, w: string, p: string)
    requires k < |BoilerplateNoise|
    requires AllSpace(w) && IsStripped(p)
    requires forall j | 0 <= j < |BoilerplateNoise| :: !Contains(BoilerplateNoise[j], p)
    ensures Strip(RemoveAll(BoilerplateNoise[k] + w + p, BoilerplateNoise)) == p
  {
    NoiseLengths();
    assert BoilerplateNoise[k] + w + p == BoilerplateNoise[k] + (w + p);
    BoilerplateAtFront(k, w + p);
    forall j | 0 <= j < |BoilerplateNoise| ensures !Contains(BoilerplateNoise[j], w + p) {
      assert BoilerplateNoise[0][0] == 'T' && BoilerplateNoise[1][0] == 'D';
      NotContainsAfterSpace(BoilerplateNoise[j], w, p);
    }
    assert RemoveAll(w + p, BoilerplateNoise) == w + p;
    StripLeadingSpace(w, p);
  }

  /** The characters of "be quoted on TDS" that the proofs about it use. */
  lemma {:induction false} QuotedChars()
    ensures |QuotedNoise| == 1 && |QuotedNoise[0]| == 16
    ensures QuotedNoise[0][0] == 'b' && QuotedNoise[0][15] == 'S'
    ensures forall d | 1 <= d < 16 :: QuotedNoise[0][d] != 'b'
    ensures forall d | 0 <= d < 16 :: QuotedNoise[0][d] != 'r' && QuotedNoise[0][d] != 'Q'
  {
  }

  /** "be quoted on TDS" does not start anywhere in a text without it, followed by
      whitespace and the phrase itself, before that final phrase. */
  lemma {:induction false} QuotedNotBefore(p: string, w: string, i: nat)
    requires !Contains(QuotedNoise[0], p) && AllSpace(w)
    requires i < |p + w|
    ensures !StartsWith(((p + w) + QuotedNoise[0])[i..], QuotedNoise[0])
  {
    QuotedChars();
    var q := QuotedNoise[0];
    var u := p + w;
    var n := |u|;
    var x := (u + q)[i..];
    assert |x| >= 16;
    if i + 16 <= n {
      if i + 15 < |p| {
        ContainsAt(q, p, i);
        assert x[..16] == p[i..][..16];
      } else {
        assert x[..16][15] == u[i + 15] == w[i + 15 - |p|];
      }
    } else {
      var d := n - i;
      assert x[..16][d] == (u + q)[n] == q[0];
    }
  }

  /** The third substitution deletes "be quoted on TDS" at the end of a text that does not
      otherwise hold it, and keeps everything before it. */
  lemma {:induction false} QuotedAtEnd(p: string, w: string)
    requires !Contains(QuotedNoise[0], p) && AllSpace(w)
    ensures RemoveAll((p + w) + QuotedNoise[0], QuotedNoise) == p + w
  {
    NoiseLengths();
    var q := QuotedNoise[0];
    var u := p + w;
    forall i | 0 <= i < |u| ensures FirstPrefix((u + q)[i..], QuotedNoise).None? {
      QuotedNotBefore(p, w, i);
    }
    RemoveAllKeepsHead(u, q, QuotedNoise);
    RemoveAllAlone(q, QuotedNoise);
    assert u + [] == u;
  }

  /** The quoted tail, regrouped, and the facts about its characters that the first two
      substitutions need. */
  lemma {:induction false} QuotedTailShape(w: string)
    requires w != [] && AllSpace(w)
    ensures var t := w + QuotedNoise[0];
      NoCodeAhead(t) && !IsSpace(t[|t| - 1])
      && forall k | 0 <= k < |t| :: t[k] != 'r' && t[k] != 'Q'
  {
    QuotedChars();
    var q := QuotedNoise[0];
    var t := w + q;
    RunOfPrefix(w, q, IsSpace);
    assert t[|w|] == q[0];
    assert t[|t| - 1] == q[15];
    forall k | 0 <= k < |t| ensures t[k] != 'r' && t[k] != 'Q' {
      if k >= |w| {
        assert t[k] == q[k - |w|];
      }
    }
  }

  /**
   * "be quoted on TDS" after a name with no noise, with whitespace between, is removed
   * together with that whitespace: the rest of the cleaning sees the name alone.
   */
  lemma {:induction false} DenoisedDropsQuoted(p: string, w: string)
    requires NoNoise(p)
    requires w != [] && AllSpace(w)
    ensures Denoised(p + w + QuotedNoise[0]) == Denoised(p)
  {
    var q := QuotedNoise[0];
    var t := w + q;
    var s := p + t;
    assert p + w + q == s;
    QuotedTailShape(w);
    FirstStepsOnHead(p, t);
    NoTailWithoutQ(t);
    DenoisedSteps(s, s, s);
    assert s == (p + w) + q;
    QuotedAtEnd(p, w);
    StripTrailingSpace(p, w);
    DenoisedOfNoNoise(p);
  }

  /** Cleaning sees past a leading boilerplate phrase. */
  lemma {:induction false} CleanDropsBoilerplate(k: nat, w: string, p: string)
    requires k < |BoilerplateNoise|
    requires AllSpace(w) && p != [] && IsStripped(p)
    requires forall j | 0 <= j < |BoilerplateNoise| :: !Contains(BoilerplateNoise[j], p)
    ensures CleanDeductorName(BoilerplateNoise[k] + w + p) == CleanDeductorName(p)
  {
    NoiseLengths();
    DenoisedDropsBoilerplate(k, w, p);
  }

  /** Cleaning sees past a trailing "be quoted on TDS". */
  lemma {:induction false} CleanDropsQuoted(p: string, w: string)
    requires NoNoise(p)
    requires w != [] && AllSpace(w)
    ensures CleanDeductorName(p + w + QuotedNoise[0]) == CleanDeductorName(p)
  {
    DenoisedDropsQuoted(p, w);
  }

  /** Removing receipt tails only deletes characters. */
  lemma {:induction false} RemoveReceiptTailsDeletes(s: string)
    ensures IsSubsequence(RemoveReceiptTails(s), s)
    decreases |s|
  {
    if s != [] {
      var n := ReceiptTailAt(s);
      if n > 0 {
        RemoveReceiptTailsDeletes(s[n..]);
        SubsequencePrepend(RemoveReceiptTails(s[n..]), s[..n], s[n..]);
        assert s[..n] + s[n..] == s;
      } else {
        RemoveReceiptTailsDeletes(s[1..]);
        KeepHead(s, RemoveReceiptTails(s[1..]));
      }
    }
  }

  /** Dropping the trailing number only deletes characters; a final newline stays. */
  lemma {:induction false} DropTrailingNumberDeletes(s: string)
    ensures IsSubsequence(DropTrailingNumber(s), s)
  {
    var n := NumberSuffix(s);
    if n == 0 {
      SubsequenceRefl(s);
    } else if s[|s| - 1] == '\n' {
      KeepPrefixAndLast(s, |s| - 1 - n);
    } else {
      SubsequenceSlice(s, 0, |s| - n);
    }
  }

  /** The four substitutions and the strips between them only delete characters: what is
      left of a name is its characters, in order, with some left out. */
  lemma {:induction false} DenoisedDeletes(name: string)
    ensures IsSubsequence(Denoised(name), name)
  {
    NoiseLengths();
    var a0 := RemoveAll(name, BoilerplateNoise);
    var a := Strip(a0);
    var b0 := RemoveReceiptTails(a);
    var b := Strip(b0);
    var c0 := RemoveAll(b, QuotedNoise);
    var c := Strip(c0);
    var d0 := DropTrailingNumber(c);
    RemoveAllDeletes(name, BoilerplateNoise);
    StripDeletes(a0);
    SubsequenceTrans(a, a0, name);
    RemoveReceiptTailsDeletes(a);
    StripDeletes(b0);
    SubsequenceTrans(b, b0, a);
    SubsequenceTrans(b, a, name);
    RemoveAllDeletes(b, QuotedNoise);
    StripDeletes(c0);
    SubsequenceTrans(c, c0, b);
    SubsequenceTrans(c, b, name);
    DropTrailingNumberDeletes(c);
    StripDeletes(d0);
    SubsequenceTrans(Strip(d0), d0, c);
    SubsequenceTrans(Strip(d0), c, name);
  }

  /** A name the cleaner accepts is made of the input's characters, in order. */
  lemma {:induction false} CleanedDeletes(name: string)
    requires CleanDeductorName(name).Some?
    ensures IsSubsequence(CleanDeductorName(name).value, name)
  {
    if name == "" {
      SubsequenceRefl(name);
    } else {
      DenoisedDeletes(name);
    }
  }
}
