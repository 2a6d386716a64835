/**
  The line patterns of the legislative-text reformatter and the body-only
  filter, each written as a predicate over the characters of one line.

  Every pattern is a chain of character classes, so the regular
  expression's backtracking never changes the outcome: a run of `\s`,
  `\d` or `[a-z]` that is followed by a character outside its class can
  only match maximally. Each predicate therefore walks maximal runs with
  `SpanFrom` / `SpanBack`. Patterns marked "any case" were compiled with
  the `i` flag; for the ASCII letters they contain that flag means
  "compare after lower-casing".
 */
module Patterns {
  import opened Text
  import opened Wrappers

  /** One of the English ordinal suffixes, already lower-cased. */
  predicate IsOrdinal(two: string) {
    two == "st" || two == "nd" || two == "rd" || two == "th"
  }

  // ---------------------------------------------------------------------
  // Legislator attribution and district references
  // ---------------------------------------------------------------------

  /** `REP.` or `SEN.` (any case) at the start, then white space, then a letter. */
  predicate IsAttribution(s: string) {
    && |s| > 4
    && (AtIgnoringCase(s, 0, "rep.") || AtIgnoringCase(s, 0, "sen."))
    && IsSpace(s[4])
    && var k := SpanFrom(s, 4, IsSpace);
       k < |s| && IsLetter(s[k])
  }

  /** The line ends in a comma, optional white space and a number (`SMITH, 11`). */
  predicate EndsWithPartialDistrict(s: string) {
    var d := SpanBack(s, |s|, IsDigit);
    && d < |s|
    && var w := SpanBack(s, d, IsSpace);
       w > 0 && s[w - 1] == ','
  }

  /** The whole line is `st`, `nd`, `rd` or `th` (any case). */
  predicate IsOrdinalLine(s: string) {
    |s| == 2 && IsOrdinal(Lower(s))
  }

  /** The whole line is `Dist.` (any case). */
  predicate IsDistLine(s: string) {
    Lower(s) == "dist."
  }

  /** The line ends in a digit, an ordinal suffix, white space and `Dist.`
      (any case), as in `86th Dist.`. */
  predicate EndsWithDistrictRef(s: string) {
    && |s| >= 5
    && AtIgnoringCase(s, |s| - 5, "dist.")
    && var w := SpanBack(s, |s| - 5, IsSpace);
       && w < |s| - 5
       && w >= 3
       && IsOrdinal(Lower(s[w - 2..w]))
       && IsDigit(s[w - 3])
  }

  // ---------------------------------------------------------------------
  // Line numbers
  // ---------------------------------------------------------------------

  /** The line starts with a number followed by white space. */
  predicate StartsWithLineNumber(s: string) {
    var d := SpanFrom(s, 0, IsDigit);
    0 < d < |s| && IsSpace(s[d])
  }

  /** A line number found at the end of a line, and the text before it. */
  datatype Renumbered = Renumbered(number: string, text: string)

  /** `v.number` is the digit run that ends `s`, with white space before
      it, and `v.text` is the rest of `s` trimmed. */
  predicate SplitsOffNumber(s: string, v: Renumbered) {
    var n := v.number;
    && |n| > 0 && AllDigits(n)
    && |n| < |s|
    && s[|s| - |n|..] == n
    && IsSpace(s[|s| - |n| - 1])
    && v.text == Trim(s[..|s| - |n|])
    && |v.text| + |n| < |s|
    && Trim(v.text) == v.text
  }

  /** A line that ends in white space and a number: that number, and the
      line with the white space and number removed, then trimmed. */
  function TrailingLineNumber(s: string): (r: Option<Renumbered>)
    ensures r.Some? <==> (var d := SpanBack(s, |s|, IsDigit); 0 < d < |s| && IsSpace(s[d - 1]))
    ensures r.Some? ==> SplitsOffNumber(s, r.value)
  {
    var d := SpanBack(s, |s|, IsDigit);
    if 0 < d < |s| && IsSpace(s[d - 1]) then
      TrailingNumberParts(s, d);
      Some(Renumbered(s[d..], Trim(s[..SpanBack(s, d, IsSpace)])))
    else
      None
  }

  /** The number `s[d..]` and the trimmed text before the white space
      that separates them. */
  lemma TrailingNumberParts(s: string, d: nat)
    requires 0 < d < |s| && IsSpace(s[d - 1])
    requires forall k :: d <= k < |s| ==> IsDigit(s[k])
    ensures SplitsOffNumber(s, Renumbered(s[d..], Trim(s[..SpanBack(s, d, IsSpace)])))
  {
    var w := SpanBack(s, d, IsSpace);
    assert w == SpanBack(s, d - 1, IsSpace);
    var t := TrimmedBefore(s[..w]);
    var n := s[d..];
    assert forall k :: 0 <= k < |n| ==> n[k] == s[d + k];
    GapBeforeNumber(s, w, d);
    SplitsOffNumberIntro(s, n, t);
  }

  /** Removing the white space before the number does not change the trim. */
  lemma GapBeforeNumber(s: string, w: nat, d: nat)
    requires w <= d <= |s| && forall k :: w <= k < d ==> IsSpace(s[k])
    ensures Trim(s[..w]) == Trim(s[..d])
  {
    var x := s[..d];
    assert AllSpace(x[w..]) by {
      forall k | 0 <= k < |x[w..]| ensures IsSpace(x[w..][k]) {
        assert x[w..][k] == s[w + k];
      }
    }
    TrimIgnoresTrailingSpace(x, w);
    assert x[..w] == s[..w];
  }

  /** The trimmed text, no longer than the text and trimmed already. */
  lemma TrimmedBefore(x: string) returns (t: string)
    ensures t == Trim(x) && |t| <= |x| && Trim(t) == t
  {
    t := Trim(x);
    TrimIdempotent(x);
  }

  lemma SplitsOffNumberIntro(s: string, n: string, t: string)
    requires 0 < |n| < |s| && s[|s| - |n|..] == n && AllDigits(n)
    requires |t| + |n| < |s| && Trim(t) == t
    requires IsSpace(s[|s| - |n| - 1])
    requires t == Trim(s[..|s| - |n|])
    ensures SplitsOffNumber(s, Renumbered(n, t))
  {
  }

  /** The line starts with a number and a period (`3.`). */
  predicate StartsWithItemNumber(s: string) {
    var d := SpanFrom(s, 0, IsDigit);
    0 < d < |s| && s[d] == '.'
  }

  /** The line is `N of M` (lower-case `of`, nothing else on the line). */
  predicate IsPageNumber(s: string) {
    var d := SpanFrom(s, 0, IsDigit);
    && 0 < d < |s| && IsSpace(s[d])
    && var q := SpanFrom(s, d, IsSpace);
       && q + 2 < |s| && s[q..q + 2] == "of" && IsSpace(s[q + 2])
       && var t := SpanFrom(s, q + 2, IsSpace);
          var e := SpanFrom(s, t, IsDigit);
          e > t && e == |s|
  }

  /** The line starts `N LCO No.` (any case). */
  predicate IsLcoLine(s: string) {
    var d := SpanFrom(s, 0, IsDigit);
    && 0 < d < |s| && IsSpace(s[d])
    && var q := SpanFrom(s, d, IsSpace);
       && AtIgnoringCase(s, q, "lco")
       && q + 3 < |s| && IsSpace(s[q + 3])
       && var t := SpanFrom(s, q + 3, IsSpace);
          AtIgnoringCase(s, t, "no.")
  }

  /** Both page counters and LCO headers begin with a number and white
      space, so they are always also numbered lines. */
  lemma MarkersAreNumbered(s: string)
    ensures IsLcoLine(s) ==> StartsWithLineNumber(s)
    ensures IsPageNumber(s) ==> StartsWithLineNumber(s)
  {
  }

  // ---------------------------------------------------------------------
  // Structural lines
  // ---------------------------------------------------------------------

  /** White space, a number and a period, starting at index `p`. */
  predicate NumberWithPeriodAfter(s: string, p: nat) {
    && p < |s| && IsSpace(s[p])
    && var q := SpanFrom(s, p, IsSpace);
       var e := SpanFrom(s, q, IsDigit);
       e > q && e < |s| && s[e] == '.'
  }

  /** `Section 3.` or `Sec. 3.` (any case) at the start of the line. */
  predicate IsSectionHeader(s: string) {
    || (AtIgnoringCase(s, 0, "section") && NumberWithPeriodAfter(s, 7))
    || (AtIgnoringCase(s, 0, "sec.") && NumberWithPeriodAfter(s, 4))
  }

  /** `SB 12 Amendment` or `HB 12 Amendment` (any case) at the start of the line. */
  predicate IsAmendmentTitle(s: string) {
    && (AtIgnoringCase(s, 0, "sb") || AtIgnoringCase(s, 0, "hb"))
    && 2 < |s| && IsSpace(s[2])
    && var q := SpanFrom(s, 2, IsSpace);
       var e := SpanFrom(s, q, IsDigit);
       && e > q && e < |s| && IsSpace(s[e])
       && var t := SpanFrom(s, e, IsSpace);
          AtIgnoringCase(s, t, "amendment")
  }

  predicate NotQuoteOrPeriod(c: char) { c != '"' && c != '.' }

  /** At index `i`: a double quote, `AN ACT` (any case), white space, at
      least one more character that is neither a quote nor a period, then
      a period and a closing quote. */
  predicate ActTitleAt(s: string, i: nat) {
    && i < |s| && s[i] == '"'
    && AtIgnoringCase(s, i + 1, "an act")
    && i + 7 < |s| && IsSpace(s[i + 7])
    && var m := SpanFrom(s, i + 7, NotQuoteOrPeriod);
       m >= i + 9 && m + 1 < |s| && s[m] == '.' && s[m + 1] == '"'
  }

  /** The line quotes an act title somewhere (`"AN ACT CONCERNING X."`). */
  predicate IsActTitle(s: string) {
    exists i: nat :: i < |s| && ActTitleAt(s, i)
  }

  /** Every character is an upper-case ASCII letter or white space
      (case-sensitive: lower-case letters, digits and punctuation all fail). */
  predicate IsAllCaps(s: string) {
    |s| > 0 && forall k :: 0 <= k < |s| ==> IsUpper(s[k]) || IsSpace(s[k])
  }

  // ---------------------------------------------------------------------
  // Boilerplate recognised only by the body-only filter
  // ---------------------------------------------------------------------

  /** `March 3, 2024`: a capital, lower-case letters, one space, one or two
      digits, a comma, one space and exactly four digits, nothing else. */
  predicate IsDateLine(s: string) {
    && |s| > 0 && IsUpper(s[0])
    && var l := SpanFrom(s, 1, IsLower);
       && l > 1 && l < |s| && s[l] == ' '
       && var d := SpanFrom(s, l + 1, IsDigit);
          && 1 <= d - (l + 1) <= 2
          && d + 6 == |s| && s[d] == ',' && s[d + 1] == ' '
          && AllDigits(s[d + 2..])
  }

  /** Optional white space, a number, optional white space, nothing else. */
  predicate IsBareNumber(s: string) {
    var a := SpanFrom(s, 0, IsSpace);
    var b := SpanFrom(s, a, IsDigit);
    b > a && SpanFrom(s, b, IsSpace) == |s|
  }

  /** `File No.`, `Calendar No.` or `Substitute` (any case) at the start. */
  predicate IsHeaderFooter(s: string) {
    || AtIgnoringCase(s, 0, "file no.")
    || AtIgnoringCase(s, 0, "calendar no.")
    || AtIgnoringCase(s, 0, "substitute")
  }
}
