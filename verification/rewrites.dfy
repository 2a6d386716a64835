/**
  The whole-text rewrites that both formatters apply after joining their
  lines, and what they do to runs of line breaks.

  A global `String.prototype.replace` with a regular expression scans the
  text from the left: where the pattern matches, the match is replaced
  and scanning resumes after it; where it does not, one character is kept
  and scanning moves on. `ReplaceAll` is that scan, parameterised by a
  `Rule` that says whether the pattern matches at the start of the
  remaining text, how many characters the match covers and what replaces
  them. Every pattern here is a chain of character classes whose
  neighbouring classes are disjoint, so greedy matching with backtracking
  always ends on maximal runs and each rule is written with `SpanFrom`.
 */
module Rewrites {
  import opened Text
  import opened Wrappers
  import Patterns
  import Seqs

  /** A match at the start of the remaining text: its length and its replacement. */
  datatype Hit = Hit(len: nat, out: string)

  /** A usable match covers at least one character and stays inside the text. */
  predicate Fits(s: string, h: Option<Hit>) {
    h.Some? && 0 < h.value.len <= |s|
  }

  /** `s.replace(/pattern/g, replacement)` for the pattern and replacement
      that `rule` describes. */
  function ReplaceAll(s: string, rule: string -> Option<Hit>): (r: string)
    ensures (forall k :: 0 <= k <= |s| ==> rule(s[k..]).None?) ==> r == s
    decreases |s|
  {
    if |s| == 0 then ""
    else
      assert s[0..] == s;
      var h := rule(s);
      if Fits(s, h) then
        h.value.out + ReplaceAll(s[h.value.len..], rule)
      else
        assert forall k :: 0 <= k <= |s| - 1 ==> s[1..][k..] == s[k + 1..];
        [s[0]] + ReplaceAll(s[1..], rule)
  }

  /** One step of the scan. */
  lemma ReplaceAllStep(s: string, rule: string -> Option<Hit>)
    requires |s| > 0
    ensures Fits(s, rule(s)) ==>
      ReplaceAll(s, rule) == rule(s).value.out + ReplaceAll(s[rule(s).value.len..], rule)
    ensures !Fits(s, rule(s)) ==> ReplaceAll(s, rule) == [s[0]] + ReplaceAll(s[1..], rule)
  {
  }

  // ---------------------------------------------------------------------
  // The rules, one per replace call
  // ---------------------------------------------------------------------

  /** `/(\d+)(st|nd|rd|th)\s+Dist\./gi` to `"$1$2 Dist."`: the white space
      between an ordinal and `Dist.` becomes one space and `Dist.` is
      written with a capital D and lower-case letters. */
  function DistrictSuffixRule(s: string): Option<Hit> {
    var d := SpanFrom(s, 0, IsDigit);
    if d > 0 && d + 2 < |s| && Patterns.IsOrdinal(Lower(s[d..d + 2])) && IsSpace(s[d + 2]) then
      var w := SpanFrom(s, d + 2, IsSpace);
      if AtIgnoringCase(s, w, "dist.") then Some(Hit(w + 5, s[..d + 2] + " Dist.")) else None
    else None
  }

  predicate IsCloser(c: char) { c == '.' || c == ',' || c == ';' || c == ':' || c == ')' }

  /** `/\s+([.,;:)])/g` to `"$1"`: white space (line breaks included)
      before a closing punctuation mark is removed. */
  function SpaceBeforeCloserRule(s: string): Option<Hit> {
    var w := SpanFrom(s, 0, IsSpace);
    if 0 < w < |s| && IsCloser(s[w]) then Some(Hit(w + 1, [s[w]])) else None
  }

  predicate IsOpener(c: char) { c == '(' || c == '{' }

  /** `/([({])\s+/g` to `"$1"`: white space after `(` or `{` is removed. */
  function SpaceAfterOpenerRule(s: string): Option<Hit> {
    if |s| >= 2 && IsOpener(s[0]) && IsSpace(s[1]) then
      Some(Hit(SpanFrom(s, 1, IsSpace), [s[0]]))
    else None
  }

  /** `/\n{3,}/g` to `"\n\n"`: three or more line breaks become two. */
  function BreakRunRule(s: string): Option<Hit> {
    var n := SpanFrom(s, 0, IsNewline);
    if n >= 3 then Some(Hit(n, "\n\n")) else None
  }

  predicate NotQuote(c: char) { c != '"' }

  /** `/"([^"]+)"/g` with a callback that trims the quoted text. */
  function QuoteTrimRule(s: string): Option<Hit> {
    if |s| > 0 && s[0] == '"' then
      var m := SpanFrom(s, 1, NotQuote);
      if 1 < m < |s| then Some(Hit(m + 1, "\"" + Trim(s[1..m]) + "\"")) else None
    else None
  }

  predicate NotPeriod(c: char) { c != '.' }

  /** `/(AN ACT[^\.]+\.)/gi` with a callback that upper-cases the match:
      from `AN ACT` (any case) up to and including the next period. */
  function ActTitleCaseRule(s: string): Option<Hit> {
    if AtIgnoringCase(s, 0, "an act") then
      var m := SpanFrom(s, 6, NotPeriod);
      if 6 < m < |s| then Some(Hit(m + 1, Upper(s[..m + 1]))) else None
    else None
  }

  /** `/m(\w)/g` to `"m $1"`: a space after the mark `m` where a word
      character follows it. */
  function MarkSpaceRule(m: char, s: string): Option<Hit> {
    if |s| >= 2 && s[0] == m && IsWordChar(s[1]) then Some(Hit(2, [m, ' ', s[1]])) else None
  }

  /** `/\.(\w)/g` to `". $1"`: a space after a period that a word character follows. */
  function PeriodSpaceRule(s: string): Option<Hit> { MarkSpaceRule('.', s) }

  /** Global `(\d+)\s*\)\s*` to `"$1) "`: a number, its closing parenthesis and
      exactly one space, whatever white space surrounded them. */
  function NumberParenRule(s: string): Option<Hit> {
    var d := SpanFrom(s, 0, IsDigit);
    if d > 0 then
      var w := SpanFrom(s, d, IsSpace);
      if w < |s| && s[w] == ')' then Some(Hit(SpanFrom(s, w + 1, IsSpace), s[..d] + ") ")) else None
    else None
  }

  /** `/(\w+)\s*-\s*(\w+)/g` to `"$1-$2"`: no white space around a hyphen
      between two words. */
  function RangeRule(s: string): (r: Option<Hit>)
    ensures r.Some? ==> NoNewline(r.value.out)
  {
    var a := SpanFrom(s, 0, IsWordChar);
    if a > 0 then
      var b := SpanFrom(s, a, IsSpace);
      if b < |s| && s[b] == '-' then
        var c := SpanFrom(s, b + 1, IsSpace);
        var e := SpanFrom(s, c, IsWordChar);
        if e > c then
          WordsNoNewline(s, 0, a);
          WordsNoNewline(s, c, e);
          assert s[0..a] == s[..a];
          Some(Hit(e, Hyphenate(s, a, c, e)))
        else None
      else None
    else None
  }

  /** The two words of a range, `s[..a]` and `s[c..e]`, joined by a hyphen. */
  function Hyphenate(s: string, a: nat, c: nat, e: nat): string
    requires a <= c <= e <= |s|
  {
    s[..a] + "-" + s[c..e]
  }

  /** `/,(\w)/g` to `", $1"`: a space after a comma that a word character follows. */
  function CommaSpaceRule(s: string): Option<Hit> { MarkSpaceRule(',', s) }

  // ---------------------------------------------------------------------
  // Runs of line breaks
  // ---------------------------------------------------------------------

  /** Three line breaks in a row start at index `k`. */
  predicate TripleBreakAt(s: string, k: int) {
    0 <= k && k + 2 < |s| && s[k] == '\n' && s[k + 1] == '\n' && s[k + 2] == '\n'
  }

  /** At most one blank line in a row: never three consecutive line breaks. */
  predicate NoTripleBreak(s: string) {
    forall k :: 0 <= k < |s| ==> !TripleBreakAt(s, k)
  }

  /** The number of line breaks a text starts with. */
  function LeadingBreaks(s: string): nat { SpanFrom(s, 0, IsNewline) }

  lemma InfixNoTriple(s: string, i: nat, j: nat)
    requires i <= j <= |s| && NoTripleBreak(s)
    ensures NoTripleBreak(s[i..j])
  {
    forall k | 0 <= k < j - i ensures !TripleBreakAt(s[i..j], k) {
      assert TripleBreakAt(s[i..j], k) == TripleBreakAt(s, i + k);
    }
  }

  lemma NoBreakNoTriple(s: string)
    requires NoNewline(s)
    ensures NoTripleBreak(s)
  {
    forall k | 0 <= k < |s| ensures !TripleBreakAt(s, k) {
      assert s[k] in s;
    }
  }

  /** A text without three breaks in a row starts with at most two. */
  lemma FewLeadingBreaks(s: string)
    requires NoTripleBreak(s)
    ensures LeadingBreaks(s) <= 2
  {
    if LeadingBreaks(s) > 2 {
      assert TripleBreakAt(s, 0);
    }
  }

  /** Putting one character in front of a text: its leading breaks grow by
      one or vanish, and no triple appears while they stay below three. */
  lemma Cons(c: char, x: string)
    requires NoTripleBreak(x)
    requires c == '\n' ==> LeadingBreaks(x) <= 1
    ensures NoTripleBreak([c] + x)
    ensures LeadingBreaks([c] + x) == if c == '\n' then LeadingBreaks(x) + 1 else 0
  {
    var y := [c] + x;
    var n := LeadingBreaks(x);
    if c == '\n' {
      forall k | 0 <= k < n + 1 ensures IsNewline(y[k]) {
        if k > 0 {
          assert y[k] == x[k - 1];
        }
      }
      SpanFromUnique(y, 0, IsNewline, n + 1);
    } else {
      SpanFromUnique(y, 0, IsNewline, 0);
    }
    forall k | 0 <= k < |y| ensures !TripleBreakAt(y, k) {
      if k > 0 {
        assert TripleBreakAt(y, k) == TripleBreakAt(x, k - 1);
      } else if c == '\n' && 2 < |y| && x[0] == '\n' {
        assert x[1] != '\n';
      }
    }
  }

  /** A piece that neither starts nor ends with a line break separates the
      line breaks on its left from those on its right. */
  lemma Separated(a: string, m: string, b: string)
    requires NoTripleBreak(a) && NoTripleBreak(m) && NoTripleBreak(b)
    requires |m| > 0 && m[0] != '\n' && m[|m| - 1] != '\n'
    ensures NoTripleBreak(a + m + b)
  {
    var s := a + m + b;
    forall k | 0 <= k < |s| ensures !TripleBreakAt(s, k) {
      if k + 2 < |a| {
        assert TripleBreakAt(s, k) == TripleBreakAt(a, k);
      } else if |a| <= k && k + 2 < |a| + |m| {
        assert TripleBreakAt(s, k) == TripleBreakAt(m, k - |a|);
      } else if |a| + |m| <= k {
        assert TripleBreakAt(s, k) == TripleBreakAt(b, k - |a| - |m|);
      } else if k <= |a| <= k + 2 {
        assert s[|a|] == m[0];
      } else {
        assert s[|a| + |m| - 1] == m[|m| - 1];
      }
    }
  }

  /** A replacement that starts with something other than a line break,
      put before a text without triples, leaves none and leaves the result
      starting with no line break. */
  lemma Lead(out: string, x: string)
    requires NoTripleBreak(out) && NoTripleBreak(x)
    requires |out| > 0 && out[0] != '\n' && out[|out| - 1] != '\n'
    ensures NoTripleBreak(out + x)
    ensures LeadingBreaks(out + x) == 0
  {
    Separated([], out, x);
    assert [] + out + x == out + x;
    SpanFromUnique(out + x, 0, IsNewline, 0);
  }

  // ---------------------------------------------------------------------
  // Which passes keep, and which pass establishes, "no triple break"
  // ---------------------------------------------------------------------

  /** A replacement that cannot create a run of line breaks: it is not
      empty, does not start or end with a line break, and has no triple
      break of its own when the text it was taken from had none. */
  ghost predicate SafeHit(s: string, h: Option<Hit>) {
    Fits(s, h) && NoTripleBreak(s) ==>
      var out := h.value.out;
      |out| > 0 && out[0] != '\n' && out[|out| - 1] != '\n' && NoTripleBreak(out)
  }

  ghost predicate SafeRule(rule: string -> Option<Hit>) {
    forall s :: SafeHit(s, rule(s))
  }

  /** A pass with a safe rule never creates three consecutive line breaks,
      and never makes the text start with more line breaks than before. */
  lemma {:induction false} ReplaceKeeps(s: string, rule: string -> Option<Hit>)
    requires SafeRule(rule)
    requires NoTripleBreak(s)
    ensures NoTripleBreak(ReplaceAll(s, rule))
    ensures LeadingBreaks(ReplaceAll(s, rule)) <= LeadingBreaks(s)
    decreases |s|
  {
    if |s| > 0 {
      var h := rule(s);
      ReplaceAllStep(s, rule);
      if Fits(s, h) {
        assert SafeHit(s, h);
        var rest := s[h.value.len..];
        InfixNoTriple(s, h.value.len, |s|);
        assert s[h.value.len..|s|] == rest;
        ReplaceKeeps(rest, rule);
        Lead(h.value.out, ReplaceAll(rest, rule));
      } else {
        InfixNoTriple(s, 1, |s|);
        assert s[1..|s|] == s[1..];
        ReplaceKeeps(s[1..], rule);
        KeepFirst(s, ReplaceAll(s[1..], rule));
      }
    }
  }

  /** Copying the first character in front of a processed rest that is
      safe and starts with no more line breaks than the original rest. */
  lemma KeepFirst(s: string, x: string)
    requires |s| > 0 && NoTripleBreak(s) && NoTripleBreak(x)
    requires LeadingBreaks(x) <= LeadingBreaks(s[1..])
    ensures NoTripleBreak([s[0]] + x)
    ensures LeadingBreaks([s[0]] + x) <= LeadingBreaks(s)
  {
    FewLeadingBreaks(s);
    if s[0] == '\n' {
      LeadingBreaksTail(s);
    }
    Cons(s[0], x);
  }

  /** After `/\n{3,}/g` is replaced by two line breaks, no three line
      breaks follow each other anywhere, and the text starts with as many
      line breaks as before, but at most two. */
  lemma {:induction false} CollapseBreaks(s: string)
    ensures NoTripleBreak(ReplaceAll(s, BreakRunRule))
    ensures LeadingBreaks(ReplaceAll(s, BreakRunRule)) == if LeadingBreaks(s) < 2 then LeadingBreaks(s) else 2
    decreases |s|
  {
    if |s| > 0 {
      var n := LeadingBreaks(s);
      if n >= 3 {
        CollapseBreaks(s[n..]);
        CollapseLongRun(s);
      } else {
        CollapseBreaks(s[1..]);
        CollapseShortRun(s);
      }
    }
  }

  /** A run of three or more line breaks becomes two, followed by a
      collapsed rest that does not start with a line break. */
  lemma CollapseLongRun(s: string)
    requires LeadingBreaks(s) >= 3
    requires NoTripleBreak(ReplaceAll(s[LeadingBreaks(s)..], BreakRunRule))
    requires var rest := s[LeadingBreaks(s)..];
      LeadingBreaks(ReplaceAll(rest, BreakRunRule)) == if LeadingBreaks(rest) < 2 then LeadingBreaks(rest) else 2
    ensures NoTripleBreak(ReplaceAll(s, BreakRunRule))
    ensures LeadingBreaks(ReplaceAll(s, BreakRunRule)) == 2
  {
    var n := LeadingBreaks(s);
    var rest := s[n..];
    ReplaceAllStep(s, BreakRunRule);
    SpanFromUnique(rest, 0, IsNewline, 0);
    var x := ReplaceAll(rest, BreakRunRule);
    assert ReplaceAll(s, BreakRunRule) == "\n\n" + x;
    Cons('\n', x);
    Cons('\n', ['\n'] + x);
    assert "\n\n" + x == ['\n'] + (['\n'] + x);
  }

  /** Fewer than three leading line breaks: the first character is kept. */
  lemma CollapseShortRun(s: string)
    requires |s| > 0 && LeadingBreaks(s) < 3
    requires NoTripleBreak(ReplaceAll(s[1..], BreakRunRule))
    requires LeadingBreaks(ReplaceAll(s[1..], BreakRunRule)) == if LeadingBreaks(s[1..]) < 2 then LeadingBreaks(s[1..]) else 2
    ensures NoTripleBreak(ReplaceAll(s, BreakRunRule))
    ensures LeadingBreaks(ReplaceAll(s, BreakRunRule)) == if LeadingBreaks(s) < 2 then LeadingBreaks(s) else 2
  {
    ReplaceAllStep(s, BreakRunRule);
    var x := ReplaceAll(s[1..], BreakRunRule);
    assert ReplaceAll(s, BreakRunRule) == [s[0]] + x;
    if s[0] == '\n' {
      LeadingBreaksTail(s);
      Cons('\n', x);
    } else {
      Cons(s[0], x);
    }
  }

  lemma LeadingBreaksTail(s: string)
    requires |s| > 0 && s[0] == '\n'
    ensures LeadingBreaks(s) == 1 + LeadingBreaks(s[1..])
  {
    var n := LeadingBreaks(s);
    forall k | 0 <= k < n - 1 ensures IsNewline(s[1..][k]) {
      assert s[1..][k] == s[k + 1];
    }
    SpanFromUnique(s[1..], 0, IsNewline, n - 1);
  }

  /** Wrapping a piece in two characters other than line breaks adds no triple. */
  lemma Wrapped(c: char, m: string, d: char)
    requires c != '\n' && d != '\n' && NoTripleBreak(m)
    ensures NoTripleBreak([c] + m + [d])
  {
    var s := [c] + m + [d];
    forall k | 0 <= k < |s| ensures !TripleBreakAt(s, k) {
      if 0 < k && k + 3 < |s| {
        assert TripleBreakAt(s, k) == TripleBreakAt(m, k - 1);
      } else if k + 3 == |s| {
        assert s[k + 2] == d;
      }
    }
  }

  lemma QuoteTrimSafe()
    ensures SafeRule(QuoteTrimRule)
  {
    forall s ensures SafeHit(s, QuoteTrimRule(s)) {
      if Fits(s, QuoteTrimRule(s)) && NoTripleBreak(s) {
        QuoteHitSafe(s);
      }
    }
  }

  /** The trimmed quotation is a piece of the text between its quotes. */
  lemma QuoteHitSafe(s: string)
    requires Fits(s, QuoteTrimRule(s)) && NoTripleBreak(s)
    ensures SafeHit(s, QuoteTrimRule(s))
  {
    var m := SpanFrom(s, 1, NotQuote);
    var t := Trim(s[1..m]);
    assert QuoteTrimRule(s).value.out == ['"'] + t + ['"'];
    InfixNoTriple(s, 1, m);
    TrimNoTriple(s[1..m]);
    Wrapped('"', t, '"');
  }

  /** Trimming cuts a piece out of a text, so it adds no triple. */
  lemma TrimNoTriple(x: string)
    requires NoTripleBreak(x)
    ensures NoTripleBreak(Trim(x))
  {
    var a := SpanFrom(x, 0, IsSpace);
    InfixNoTriple(x, a, a + |Trim(x)|);
  }

  /** Upper-casing keeps the positions of the line breaks. */
  lemma UpperNoTriple(s: string)
    requires NoTripleBreak(s)
    ensures NoTripleBreak(Upper(s))
  {
    forall k ensures !TripleBreakAt(Upper(s), k) {
      if TripleBreakAt(Upper(s), k) {
        assert TripleBreakAt(s, k);
      }
    }
  }

  lemma ActTitleCaseSafe()
    ensures SafeRule(ActTitleCaseRule)
  {
    forall s ensures SafeHit(s, ActTitleCaseRule(s)) {
      var h := ActTitleCaseRule(s);
      if Fits(s, h) && NoTripleBreak(s) {
        var m := SpanFrom(s, 6, NotPeriod);
        InfixNoTriple(s, 0, m + 1);
        UpperNoTriple(s[..m + 1]);
        assert LowerChar(s[0]) == 'a';
      }
    }
  }

  lemma PeriodSpaceSafe()
    ensures SafeRule(PeriodSpaceRule)
  {
    forall s ensures SafeHit(s, PeriodSpaceRule(s)) {
      if Fits(s, PeriodSpaceRule(s)) {
        NoBreakNoTriple(['.', ' ', s[1]]);
      }
    }
  }

  lemma CommaSpaceSafe()
    ensures SafeRule(CommaSpaceRule)
  {
    forall s ensures SafeHit(s, CommaSpaceRule(s)) {
      if Fits(s, CommaSpaceRule(s)) {
        NoBreakNoTriple([',', ' ', s[1]]);
      }
    }
  }

  lemma NumberParenSafe()
    ensures SafeRule(NumberParenRule)
  {
    forall s ensures SafeHit(s, NumberParenRule(s)) {
      if Fits(s, NumberParenRule(s)) {
        var d := SpanFrom(s, 0, IsDigit);
        var out := s[..d] + ") ";
        assert NoNewline(out) by {
          forall k | 0 <= k < |out| ensures out[k] != '\n' {
          }
        }
        NoBreakNoTriple(out);
      }
    }
  }

  lemma RangeSafe()
    ensures SafeRule(RangeRule)
  {
    forall s ensures SafeHit(s, RangeRule(s)) {
      if Fits(s, RangeRule(s)) {
        NoBreakNoTriple(RangeRule(s).value.out);
      }
    }
  }

  /** A run of word characters holds no line break. */
  lemma WordsNoNewline(s: string, i: nat, j: nat)
    requires i <= j <= |s|
    requires forall k :: i <= k < j ==> IsWordChar(s[k])
    ensures NoNewline(s[i..j])
  {
    forall k | 0 <= k < j - i ensures s[i..j][k] != '\n' {
      assert s[i..j][k] == s[i + k];
    }
  }

  // ---------------------------------------------------------------------
  // Spacing around brackets and punctuation
  // ---------------------------------------------------------------------

  predicate NotSpace(c: char) { !IsSpace(c) }

  /** Dropping a prefix of white space does not change the other characters. */
  lemma {:induction false} SkipSpaces(s: string, n: nat)
    requires n <= |s|
    requires forall k :: 0 <= k < n ==> IsSpace(s[k])
    ensures Seqs.Filter(s, NotSpace) == Seqs.Filter(s[n..], NotSpace)
  {
    if n > 0 {
      assert s[1..][n - 1..] == s[n..];
      SkipSpaces(s[1..], n - 1);
    }
  }

  /** White space directly before one of `.,;:)` at index `k`. */
  predicate SpaceBeforeCloserAt(s: string, k: int) {
    0 <= k && k + 1 < |s| && IsSpace(s[k]) && IsCloser(s[k + 1])
  }

  predicate NoSpaceBeforeCloser(s: string) {
    forall k :: 0 <= k < |s| ==> !SpaceBeforeCloserAt(s, k)
  }

  lemma ConsNoSpaceBeforeCloser(c: char, x: string)
    requires NoSpaceBeforeCloser(x)
    requires IsSpace(c) && |x| > 0 ==> !IsCloser(x[0])
    ensures NoSpaceBeforeCloser([c] + x)
  {
    var r := [c] + x;
    forall k | 0 <= k < |r| ensures !SpaceBeforeCloserAt(r, k) {
      if k > 0 {
        assert SpaceBeforeCloserAt(r, k) == SpaceBeforeCloserAt(x, k - 1);
      }
    }
  }

  /** Where the closer pass keeps a white-space character, the next
      character is kept too and is not a closing mark. */
  lemma CloserPassKeepsNext(s: string)
    requires |s| > 1 && IsSpace(s[0]) && !Fits(s, SpaceBeforeCloserRule(s))
    ensures !IsCloser(s[1])
    ensures ReplaceAll(s[1..], SpaceBeforeCloserRule)[0] == s[1]
  {
    var w := SpanFrom(s, 0, IsSpace);
    var t := s[1..];
    SpanFromUnique(t, 0, IsSpace, w - 1);
    assert w < |s| ==> t[w - 1] == s[w];
    ReplaceAllStep(t, SpaceBeforeCloserRule);
  }

  /** After `/\s+([.,;:)])/g` no white space is left directly before a closing mark. */
  lemma {:induction false} CloserPassClean(s: string)
    ensures NoSpaceBeforeCloser(ReplaceAll(s, SpaceBeforeCloserRule))
    decreases |s|
  {
    if |s| > 0 {
      ReplaceAllStep(s, SpaceBeforeCloserRule);
      var h := SpaceBeforeCloserRule(s);
      if Fits(s, h) {
        var w := SpanFrom(s, 0, IsSpace);
        assert h == Some(Hit(w + 1, [s[w]])) && !IsSpace(s[w]);
        var x := ReplaceAll(s[w + 1..], SpaceBeforeCloserRule);
        CloserPassClean(s[w + 1..]);
        ConsNoSpaceBeforeCloser(s[w], x);
        assert ReplaceAll(s, SpaceBeforeCloserRule) == [s[w]] + x;
      } else {
        var x := ReplaceAll(s[1..], SpaceBeforeCloserRule);
        CloserPassClean(s[1..]);
        if IsSpace(s[0]) && |s| > 1 {
          CloserPassKeepsNext(s);
        }
        ConsNoSpaceBeforeCloser(s[0], x);
        assert ReplaceAll(s, SpaceBeforeCloserRule) == [s[0]] + x;
      }
    }
  }

  /** The closer pass only deletes white space. */
  lemma {:induction false} CloserPassKeepsText(s: string)
    ensures Seqs.Filter(ReplaceAll(s, SpaceBeforeCloserRule), NotSpace) == Seqs.Filter(s, NotSpace)
    decreases |s|
  {
    if |s| > 0 {
      ReplaceAllStep(s, SpaceBeforeCloserRule);
      var r := ReplaceAll(s, SpaceBeforeCloserRule);
      if Fits(s, SpaceBeforeCloserRule(s)) {
        var w := SpanFrom(s, 0, IsSpace);
        var rest := ReplaceAll(s[w + 1..], SpaceBeforeCloserRule);
        CloserPassKeepsText(s[w + 1..]);
        SkipSpaces(s, w);
        assert s[w..][1..] == s[w + 1..];
        assert r[1..] == rest;
      } else {
        CloserPassKeepsText(s[1..]);
        assert r[1..] == ReplaceAll(s[1..], SpaceBeforeCloserRule);
      }
    }
  }

  /** White space directly after `(` or `{` at index `k`. */
  predicate SpaceAfterOpenerAt(s: string, k: int) {
    0 <= k && k + 1 < |s| && IsOpener(s[k]) && IsSpace(s[k + 1])
  }

  predicate NoSpaceAfterOpener(s: string) {
    forall k :: 0 <= k < |s| ==> !SpaceAfterOpenerAt(s, k)
  }

  lemma ConsNoSpaceAfterOpener(c: char, x: string)
    requires NoSpaceAfterOpener(x)
    requires IsOpener(c) && |x| > 0 ==> !IsSpace(x[0])
    ensures NoSpaceAfterOpener([c] + x)
  {
    var r := [c] + x;
    forall k | 0 <= k < |r| ensures !SpaceAfterOpenerAt(r, k) {
      if k > 0 {
        assert SpaceAfterOpenerAt(r, k) == SpaceAfterOpenerAt(x, k - 1);
      }
    }
  }

  /** After `/([({])\s+/g` no white space is left directly after an
      opening bracket, and the text still starts with its first character. */
  lemma {:induction false} OpenerPassClean(s: string)
    ensures NoSpaceAfterOpener(ReplaceAll(s, SpaceAfterOpenerRule))
    ensures |s| > 0 ==> (|ReplaceAll(s, SpaceAfterOpenerRule)| > 0
                      && ReplaceAll(s, SpaceAfterOpenerRule)[0] == s[0])
    decreases |s|
  {
    if |s| > 0 {
      ReplaceAllStep(s, SpaceAfterOpenerRule);
      if Fits(s, SpaceAfterOpenerRule(s)) {
        var n := SpanFrom(s, 1, IsSpace);
        OpenerPassClean(s[n..]);
        assert n < |s| ==> s[n..][0] == s[n];
        ConsNoSpaceAfterOpener(s[0], ReplaceAll(s[n..], SpaceAfterOpenerRule));
      } else {
        OpenerPassClean(s[1..]);
        ConsNoSpaceAfterOpener(s[0], ReplaceAll(s[1..], SpaceAfterOpenerRule));
      }
    }
  }

  /** The opener pass only deletes white space. */
  lemma {:induction false} OpenerPassKeepsText(s: string)
    ensures Seqs.Filter(ReplaceAll(s, SpaceAfterOpenerRule), NotSpace) == Seqs.Filter(s, NotSpace)
    decreases |s|
  {
    if |s| > 0 {
      ReplaceAllStep(s, SpaceAfterOpenerRule);
      var r := ReplaceAll(s, SpaceAfterOpenerRule);
      if Fits(s, SpaceAfterOpenerRule(s)) {
        var n := SpanFrom(s, 1, IsSpace);
        OpenerPassKeepsText(s[n..]);
        SkipSpaces(s[1..], n - 1);
        assert s[1..][n - 1..] == s[n..];
        assert r[1..] == ReplaceAll(s[n..], SpaceAfterOpenerRule);
      } else {
        OpenerPassKeepsText(s[1..]);
        assert r[1..] == ReplaceAll(s[1..], SpaceAfterOpenerRule);
      }
    }
  }

  // ---------------------------------------------------------------------
  // Neighbouring characters across the later passes
  // ---------------------------------------------------------------------

  /** No two neighbouring characters of `s` form a pair that `bad` rejects. */
  predicate NoPair(s: string, bad: (char, char) -> bool) {
    forall k :: 0 <= k < |s| - 1 ==> !bad(s[k], s[k + 1])
  }

  predicate SpaceThenCloser(x: char, y: char) { IsSpace(x) && IsCloser(y) }

  predicate OpenerThenSpace(x: char, y: char) { IsOpener(x) && IsSpace(y) }

  predicate CommaThenWord(x: char, y: char) { x == ',' && IsWordChar(y) }

  predicate PeriodThenWord(x: char, y: char) { x == '.' && IsWordChar(y) }

  lemma CloserGapPairs(s: string)
    ensures NoSpaceBeforeCloser(s) <==> NoPair(s, SpaceThenCloser)
  {
    if NoPair(s, SpaceThenCloser) {
      forall k | 0 <= k < |s| ensures !SpaceBeforeCloserAt(s, k) {
        if k + 1 < |s| { assert !SpaceThenCloser(s[k], s[k + 1]); }
      }
    }
    if NoSpaceBeforeCloser(s) {
      forall k | 0 <= k < |s| - 1 ensures !SpaceThenCloser(s[k], s[k + 1]) {
        assert !SpaceBeforeCloserAt(s, k);
      }
    }
  }

  lemma OpenerGapPairs(s: string)
    ensures NoSpaceAfterOpener(s) <==> NoPair(s, OpenerThenSpace)
  {
    if NoPair(s, OpenerThenSpace) {
      forall k | 0 <= k < |s| ensures !SpaceAfterOpenerAt(s, k) {
        if k + 1 < |s| { assert !OpenerThenSpace(s[k], s[k + 1]); }
      }
    }
    if NoSpaceAfterOpener(s) {
      forall k | 0 <= k < |s| - 1 ensures !OpenerThenSpace(s[k], s[k + 1]) {
        assert !SpaceAfterOpenerAt(s, k);
      }
    }
  }

  lemma NoPairInfix(s: string, i: nat, j: nat, bad: (char, char) -> bool)
    requires i <= j <= |s| && NoPair(s, bad)
    ensures NoPair(s[i..j], bad)
  {
    forall k | 0 <= k < j - i - 1 ensures !bad(s[i..j][k], s[i..j][k + 1]) {
      assert s[i..j][k] == s[i + k] && s[i..j][k + 1] == s[i + k + 1];
    }
  }

  lemma NoPairConcat(x: string, y: string, bad: (char, char) -> bool)
    requires NoPair(x, bad) && NoPair(y, bad)
    requires |x| > 0 && |y| > 0 ==> !bad(x[|x| - 1], y[0])
    ensures NoPair(x + y, bad)
  {
    var s := x + y;
    forall k | 0 <= k < |s| - 1 ensures !bad(s[k], s[k + 1]) {
      if k < |x| - 1 {
        assert s[k] == x[k] && s[k + 1] == x[k + 1];
      } else if k == |x| - 1 {
        assert s[k] == x[k] && s[k + 1] == y[0];
      } else {
        assert s[k] == y[k - |x|] && s[k + 1] == y[k - |x| + 1];
      }
    }
  }

  /** At `s`, a match of `rule` in a text free of `bad` pairs starts its
      replacement with the character it replaces, is free of `bad` pairs
      itself and forms none with the character after the match. */
  ghost predicate KeepsPairsAt(rule: string -> Option<Hit>, bad: (char, char) -> bool, s: string) {
    Fits(s, rule(s)) && NoPair(s, bad) ==>
      var h := rule(s).value;
      && |h.out| > 0 && h.out[0] == s[0] && NoPair(h.out, bad)
      && (h.len < |s| ==> !bad(h.out[|h.out| - 1], s[h.len]))
  }

  ghost predicate KeepsPairs(rule: string -> Option<Hit>, bad: (char, char) -> bool) {
    forall s :: KeepsPairsAt(rule, bad, s)
  }

  /** At `s`, any match of `rule` behaves as in `KeepsPairsAt` whatever the
      text, and where `rule` does not match, the first two characters are
      not a `bad` pair. */
  ghost predicate ClearsPairsAt(rule: string -> Option<Hit>, bad: (char, char) -> bool, s: string) {
    if Fits(s, rule(s)) then
      var h := rule(s).value;
      && |h.out| > 0 && h.out[0] == s[0] && NoPair(h.out, bad)
      && (h.len < |s| ==> !bad(h.out[|h.out| - 1], s[h.len]))
    else
      |s| > 1 ==> !bad(s[0], s[1])
  }

  ghost predicate ClearsPairs(rule: string -> Option<Hit>, bad: (char, char) -> bool) {
    forall s :: ClearsPairsAt(rule, bad, s)
  }

  /** A pass whose rule keeps `bad` pairs out leaves a text free of them
      free of them, and keeps its first character. */
  lemma {:induction false} PassKeepsPairs(s: string, rule: string -> Option<Hit>, bad: (char, char) -> bool)
    requires KeepsPairs(rule, bad) && NoPair(s, bad)
    ensures NoPair(ReplaceAll(s, rule), bad)
    ensures |s| > 0 ==> |ReplaceAll(s, rule)| > 0 && ReplaceAll(s, rule)[0] == s[0]
    decreases |s|
  {
    if |s| > 0 {
      ReplaceAllStep(s, rule);
      assert KeepsPairsAt(rule, bad, s);
      if Fits(s, rule(s)) {
        var h := rule(s).value;
        NoPairInfix(s, h.len, |s|, bad);
        assert s[h.len..|s|] == s[h.len..];
        PassKeepsPairs(s[h.len..], rule, bad);
        assert h.len < |s| ==> s[h.len..][0] == s[h.len];
        NoPairConcat(h.out, ReplaceAll(s[h.len..], rule), bad);
      } else {
        NoPairInfix(s, 1, |s|, bad);
        assert s[1..|s|] == s[1..];
        PassKeepsPairs(s[1..], rule, bad);
        assert |s| > 1 ==> !bad(s[0], s[1]);
        NoPairConcat([s[0]], ReplaceAll(s[1..], rule), bad);
      }
    }
  }

  /** A pass whose rule clears `bad` pairs leaves none in any text, and
      keeps its first character. */
  lemma {:induction false} PassClearsPairs(s: string, rule: string -> Option<Hit>, bad: (char, char) -> bool)
    requires ClearsPairs(rule, bad)
    ensures NoPair(ReplaceAll(s, rule), bad)
    ensures |s| > 0 ==> |ReplaceAll(s, rule)| > 0 && ReplaceAll(s, rule)[0] == s[0]
    decreases |s|
  {
    if |s| > 0 {
      ReplaceAllStep(s, rule);
      assert ClearsPairsAt(rule, bad, s);
      if Fits(s, rule(s)) {
        var h := rule(s).value;
        PassClearsPairs(s[h.len..], rule, bad);
        assert h.len < |s| ==> s[h.len..][0] == s[h.len];
        NoPairConcat(h.out, ReplaceAll(s[h.len..], rule), bad);
      } else {
        PassClearsPairs(s[1..], rule, bad);
        NoPairConcat([s[0]], ReplaceAll(s[1..], rule), bad);
      }
    }
  }

  /** `/m(\w)/g` to `"m $1"` puts a space only between `m` and a word
      character, so it keeps out every pair that neither `m` then a space
      nor a space then a word character forms. */
  lemma MarkSpaceKeeps(m: char, rule: string -> Option<Hit>, bad: (char, char) -> bool)
    requires forall t :: rule(t) == MarkSpaceRule(m, t)
    requires !bad(m, ' ')
    requires forall w :: IsWordChar(w) ==> !bad(' ', w)
    ensures KeepsPairs(rule, bad)
  {
    forall s ensures KeepsPairsAt(rule, bad, s) {
      assert rule(s) == MarkSpaceRule(m, s);
      if Fits(s, rule(s)) && NoPair(s, bad) {
        var out := [m, ' ', s[1]];
        assert !bad(out[0], out[1]) && !bad(out[1], out[2]);
        assert NoPair(out, bad);
        if 2 < |s| { assert !bad(s[1], s[2]); }
      }
    }
  }

  /** After `/m(\w)/g` to `"m $1"`, no `m` is directly followed by a word
      character. */
  lemma MarkSpaceClears(m: char, rule: string -> Option<Hit>, bad: (char, char) -> bool)
    requires forall t :: rule(t) == MarkSpaceRule(m, t)
    requires forall x, y :: bad(x, y) == (x == m && IsWordChar(y))
    requires m != ' ' && !IsWordChar(m)
    ensures ClearsPairs(rule, bad)
  {
    forall s ensures ClearsPairsAt(rule, bad, s) {
      assert rule(s) == MarkSpaceRule(m, s);
      if Fits(s, rule(s)) {
        var out := [m, ' ', s[1]];
        assert !bad(out[0], out[1]) && !bad(out[1], out[2]);
        assert NoPair(out, bad);
        if 2 < |s| { assert !bad(s[1], s[2]); }
      } else if |s| > 1 {
        assert !bad(s[0], s[1]);
      }
    }
  }

  /** `/(\w+)\s*-\s*(\w+)/g` to `"$1-$2"` keeps a word and its hyphen
      together, so it keeps out every pair that a word character and a
      hyphen do not form. */
  /** A word character next to a hyphen, on either side, is never a `bad` pair. */
  ghost predicate HyphenSafe(bad: (char, char) -> bool) {
    forall w :: IsWordChar(w) ==> !bad(w, '-') && !bad('-', w)
  }

  lemma SpacingPairsHyphenSafe()
    ensures HyphenSafe(SpaceThenCloser) && HyphenSafe(OpenerThenSpace)
    ensures HyphenSafe(CommaThenWord) && HyphenSafe(PeriodThenWord)
  {
  }

  lemma RangeKeeps(bad: (char, char) -> bool)
    requires HyphenSafe(bad)
    ensures KeepsPairs(RangeRule, bad)
  {
    forall s | Fits(s, RangeRule(s)) && NoPair(s, bad) ensures KeepsPairsAt(RangeRule, bad, s) {
      var a, b, c, e := RangeParts(s);
      HyphenKeepsPairs(s, a, c, e, bad);
    }
  }

  lemma HyphenKeepsPairs(s: string, a: nat, c: nat, e: nat, bad: (char, char) -> bool)
    requires 0 < a <= c < e <= |s| && NoPair(s, bad)
    requires IsWordChar(s[a - 1]) && IsWordChar(s[c])
    requires HyphenSafe(bad)
    ensures var out := Hyphenate(s, a, c, e);
      && |out| > 0 && out[0] == s[0] && NoPair(out, bad)
      && (e < |s| ==> !bad(out[|out| - 1], s[e]))
  {
    NoPairInfix(s, 0, a, bad);
    NoPairInfix(s, c, e, bad);
    assert s[0..a] == s[..a];
    NoPairConcat(s[..a], "-", bad);
    NoPairConcat(s[..a] + "-", s[c..e], bad);
    var out := s[..a] + "-" + s[c..e];
    assert out[0] == s[0] && out[|out| - 1] == s[e - 1];
    if e < |s| { assert !bad(s[e - 1], s[e]); }
  }

  /** The range pass keeps a text free of any pair that a word character
      and a hyphen do not form. */
  lemma RangePassKeepsPairs(s: string, bad: (char, char) -> bool)
    requires HyphenSafe(bad)
    requires NoPair(s, bad)
    ensures NoPair(ReplaceAll(s, RangeRule), bad)
  {
    RangeKeeps(bad);
    PassKeepsPairs(s, RangeRule, bad);
  }

  /** The comma or period pass keeps a text free of any pair that neither
      the mark then a space nor a space then a word character forms. */
  lemma MarkPassKeepsPairs(m: char, rule: string -> Option<Hit>, s: string, bad: (char, char) -> bool)
    requires forall t :: rule(t) == MarkSpaceRule(m, t)
    requires !bad(m, ' ')
    requires forall w :: IsWordChar(w) ==> !bad(' ', w)
    requires NoPair(s, bad)
    ensures NoPair(ReplaceAll(s, rule), bad)
  {
    MarkSpaceKeeps(m, rule, bad);
    PassKeepsPairs(s, rule, bad);
  }

  /** The opener pass keeps a single character, the bracket, which is not
      white space. */
  lemma OpenerKeepsCloserGap()
    ensures KeepsPairs(SpaceAfterOpenerRule, SpaceThenCloser)
  {
    forall s ensures KeepsPairsAt(SpaceAfterOpenerRule, SpaceThenCloser, s) {
    }
  }

  /** After `/,(\w)/g` no comma is directly followed by a word character. */
  lemma {:induction false} CommaPassClean(s: string)
    ensures NoPair(ReplaceAll(s, CommaSpaceRule), CommaThenWord)
  {
    MarkSpaceClears(',', CommaSpaceRule, CommaThenWord);
    PassClearsPairs(s, CommaSpaceRule, CommaThenWord);
  }

  /** After `/\.(\w)/g` no period is directly followed by a word character. */
  lemma {:induction false} PeriodPassClean(s: string)
    ensures NoPair(ReplaceAll(s, PeriodSpaceRule), PeriodThenWord)
  {
    MarkSpaceClears('.', PeriodSpaceRule, PeriodThenWord);
    PassClearsPairs(s, PeriodSpaceRule, PeriodThenWord);
  }

  /** White space, a hyphen and white space again keep only the hyphen. */
  lemma HyphenGapText(g: string, i: nat)
    requires i < |g| && g[i] == '-'
    requires forall k :: 0 <= k < |g| && k != i ==> IsSpace(g[k])
    ensures Seqs.Filter(g, NotSpace) == "-"
  {
    SkipSpaces(g, i);
    var t := g[i + 1..];
    assert forall k :: 0 <= k < |t| ==> t[k] == g[i + 1 + k];
    SkipSpaces(t, |t|);
    assert g[i..][1..] == t && t[|t|..] == [];
  }

  /** The pieces of a range match: the first word `s[..a]`, white space,
      the hyphen at `b`, white space and the second word `s[c..e]`. */
  lemma RangeParts(s: string) returns (a: nat, b: nat, c: nat, e: nat)
    requires Fits(s, RangeRule(s))
    ensures 0 < a <= b < c <= e <= |s| && s[b] == '-'
    ensures forall k :: a <= k < c && k != b ==> IsSpace(s[k])
    ensures forall k :: 0 <= k < a || c <= k < e ==> IsWordChar(s[k])
    ensures RangeRule(s).value == Hit(e, Hyphenate(s, a, c, e))
  {
    a := SpanFrom(s, 0, IsWordChar);
    b := SpanFrom(s, a, IsSpace);
    c := SpanFrom(s, b + 1, IsSpace);
    e := SpanFrom(s, c, IsWordChar);
    assert RangeRule(s) == Some(Hit(e, Hyphenate(s, a, c, e)));
  }

  /** A range match loses only the white space on either side of its hyphen. */
  lemma RangeHitKeepsText(s: string)
    requires Fits(s, RangeRule(s))
    ensures Seqs.Filter(RangeRule(s).value.out, NotSpace)
         == Seqs.Filter(s[..RangeRule(s).value.len], NotSpace)
  {
    var a, b, c, e := RangeParts(s);
    HyphenKeepsText(s, a, b, c, e);
  }

  lemma HyphenKeepsText(s: string, a: nat, b: nat, c: nat, e: nat)
    requires a <= b < c <= e <= |s| && s[b] == '-'
    requires forall k :: a <= k < c && k != b ==> IsSpace(s[k])
    ensures Seqs.Filter(Hyphenate(s, a, c, e), NotSpace) == Seqs.Filter(s[..e], NotSpace)
  {
    var gap := s[a..c];
    assert forall k :: 0 <= k < |gap| && k != b - a ==> IsSpace(gap[k]);
    HyphenGapText(gap, b - a);
    assert s[..e] == s[..a] + gap + s[c..e];
    SameTextAround(s[..a], gap, "-", s[c..e]);
  }

  lemma SameTextAround(x: string, g: string, h: string, y: string)
    requires Seqs.Filter(g, NotSpace) == Seqs.Filter(h, NotSpace)
    ensures Seqs.Filter(x + g + y, NotSpace) == Seqs.Filter(x + h + y, NotSpace)
  {
    Seqs.FilterConcat(x + g, y, NotSpace);
    Seqs.FilterConcat(x, g, NotSpace);
    Seqs.FilterConcat(x + h, y, NotSpace);
    Seqs.FilterConcat(x, h, NotSpace);
  }

  /** At `s`, a match of `rule` keeps the characters other than white space. */
  ghost predicate KeepsTextAt(rule: string -> Option<Hit>, s: string) {
    Fits(s, rule(s)) ==>
      Seqs.Filter(rule(s).value.out, NotSpace) == Seqs.Filter(s[..rule(s).value.len], NotSpace)
  }

  ghost predicate KeepsText(rule: string -> Option<Hit>) {
    forall s :: KeepsTextAt(rule, s)
  }

  lemma Halves(s: string, n: nat)
    requires n <= |s|
    ensures s[..n] + s[n..] == s
  {
  }

  /** Texts with the same characters other than white space, joined, still
      have the same such characters. */
  lemma ConcatSameText(a: string, b: string, c: string, d: string)
    requires Seqs.Filter(a, NotSpace) == Seqs.Filter(c, NotSpace)
    requires Seqs.Filter(b, NotSpace) == Seqs.Filter(d, NotSpace)
    ensures Seqs.Filter(a + b, NotSpace) == Seqs.Filter(c + d, NotSpace)
  {
    Seqs.FilterConcat(a, b, NotSpace);
    Seqs.FilterConcat(c, d, NotSpace);
  }

  /** Replacing each of the two parts of `s` split at `n` by a text with
      the same characters other than white space keeps those of `s`. */
  lemma JoinText(s: string, n: nat, out: string, rest: string)
    requires n <= |s|
    requires Seqs.Filter(out, NotSpace) == Seqs.Filter(s[..n], NotSpace)
    requires Seqs.Filter(rest, NotSpace) == Seqs.Filter(s[n..], NotSpace)
    ensures Seqs.Filter(out + rest, NotSpace) == Seqs.Filter(s, NotSpace)
  {
    Halves(s, n);
    ConcatSameText(out, rest, s[..n], s[n..]);
  }

  /** A pass whose matches keep the characters other than white space
      keeps them in the whole text. */
  lemma {:induction false} PassKeepsText(s: string, rule: string -> Option<Hit>)
    requires KeepsText(rule)
    ensures Seqs.Filter(ReplaceAll(s, rule), NotSpace) == Seqs.Filter(s, NotSpace)
    decreases |s|
  {
    if |s| > 0 {
      ReplaceAllStep(s, rule);
      if Fits(s, rule(s)) {
        var h := rule(s).value;
        assert KeepsTextAt(rule, s);
        PassKeepsText(s[h.len..], rule);
        JoinText(s, h.len, h.out, ReplaceAll(s[h.len..], rule));
      } else {
        PassKeepsText(s[1..], rule);
        assert s[..1] == [s[0]];
        JoinText(s, 1, [s[0]], ReplaceAll(s[1..], rule));
      }
    }
  }

  /** The range pass only deletes white space. */
  lemma RangePassKeepsText(s: string)
    ensures Seqs.Filter(ReplaceAll(s, RangeRule), NotSpace) == Seqs.Filter(s, NotSpace)
  {
    forall t ensures KeepsTextAt(RangeRule, t) {
      if Fits(t, RangeRule(t)) { RangeHitKeepsText(t); }
    }
    PassKeepsText(s, RangeRule);
  }
}
