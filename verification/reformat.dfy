/**
  `improveTextFormatting` of the PDF-text route: the server-side clean-up
  that turns the raw text of a bill or amendment PDF into readable lines.

  It runs in three stages. Each input line is trimmed and a legislator
  attribution that the PDF broke over three lines (`SEN. SMITH, 11` /
  `th` / `Dist.`) is glued back together. Then the lines are folded one
  at a time into the output: blank, numbered and attribution lines pass
  through, a number at the end of a line moves to its front, headers and
  titles get a blank line before them, and other text continues the
  previous numbered line when that stays short. Finally the lines are
  joined and a fixed series of whole-text rewrites tidies spacing,
  quotes, titles and blank lines.
 */
module Reformat {
  import opened Text
  import opened Wrappers
  import opened Patterns
  import opened Rewrites
  import opened DistrictJoin

  /** The longest line the continuation rule will build. */
  const MaxMergedLength: nat := 120

  // ---------------------------------------------------------------------
  // Stage 1: trimming and re-joining split district references (the
  // re-joining itself is in module DistrictJoin)
  // ---------------------------------------------------------------------

  /** `line.trim()` for every line. */
  function TrimAll(lines: seq<string>): (r: seq<string>)
    ensures |r| == |lines|
    ensures forall i :: 0 <= i < |lines| ==> r[i] == Trim(lines[i])
  {
    seq(|lines|, i requires 0 <= i < |lines| => Trim(lines[i]))
  }

  // ---------------------------------------------------------------------
  // Stage 2: the line-by-line fold
  // ---------------------------------------------------------------------

  /** Lines the first branches push as they are. */
  predicate PassesThrough(line: string) {
    line == "" || StartsWithLineNumber(line) || IsAttribution(line) || EndsWithDistrictRef(line)
  }

  /** A blank separator is pushed unless the output is empty or already
      ends with a blank line. */
  function Separate(out: seq<string>): (r: seq<string>)
    ensures r == out || r == out + [""]
    ensures |r| > 0 ==> r[|r| - 1] == ""
    ensures |out| > 0 && out[|out| - 1] == "" ==> r == out
  {
    if |out| > 0 && out[|out| - 1] != "" then out + [""] else out
  }

  /** The continuation rule: `line` may be appended to `prev` when `prev`
      is numbered, `line` looks like neither a heading nor an item nor a
      marker, and the two together stay under the length limit. */
  predicate CanContinue(prev: string, line: string) {
    && StartsWithLineNumber(prev)
    && !IsAllCaps(line)
    && !StartsWithItemNumber(line)
    && !IsSectionHeader(line)
    && !IsAmendmentTitle(line)
    && !IsLcoLine(line)
    && !IsPageNumber(line)
    && |prev| + |line| < MaxMergedLength
  }

  function Last(out: seq<string>): string {
    if |out| == 0 then "" else out[|out| - 1]
  }

  /** The last line of `r` is the last line of `out` with `line` appended
      after a space, and nothing else changed. */
  predicate MergedInto(out: seq<string>, line: string, r: seq<string>) {
    && |out| > 0 && |r| == |out|
    && (forall i :: 0 <= i < |out| - 1 ==> r[i] == out[i])
    && r[|out| - 1] == out[|out| - 1] + " " + line
  }

  /** The renumbered form of a line: its trailing number, a space, its text. */
  function Renumber(rn: Renumbered): (r: string)
    requires |rn.number| > 0 && AllDigits(rn.number)
    ensures |r| == |rn.number| + 1 + |rn.text|
    ensures StartsWithLineNumber(r)
    ensures r[..|rn.number|] == rn.number
  {
    var r := rn.number + " " + rn.text;
    SpanFromUnique(r, 0, IsDigit, |rn.number|);
    r
  }

  /** Which branch of the main loop a (trimmed, non-empty or empty) line takes. */
  datatype LineKind =
    | Blank
    | Kept
    | MovedNumber(rn: Renumbered)
    | Header
    | Title
    | Marker
    | ActTitle
    | Other

  /** The branches in the order the loop tries them. Blank, numbered and
      attribution lines are exactly the ones kept as they are; a trailing
      number is moved for every other line that has one; and the branch
      for LCO headers and page counters is never chosen, because both
      start with a number and white space and the numbered-line branch has
      already taken them. */
  function Classify(line: string): (k: LineKind)
    ensures (k == Blank) == (line == "")
    ensures (k == Blank || k == Kept) == PassesThrough(line)
    ensures k.MovedNumber? == (!PassesThrough(line) && TrailingLineNumber(line).Some?)
    ensures k.MovedNumber? ==> TrailingLineNumber(line) == Some(k.rn)
    ensures k == Header ==> IsSectionHeader(line)
    ensures k == Title ==> IsAmendmentTitle(line) && !IsSectionHeader(line)
    ensures k == ActTitle ==> IsActTitle(line)
    ensures k != Marker
  {
    MarkersAreNumbered(line);
    if line == "" then Blank
    else if StartsWithLineNumber(line) then Kept
    else if IsAttribution(line) || EndsWithDistrictRef(line) then Kept
    else if TrailingLineNumber(line).Some? && !EndsWithDistrictRef(line) then MovedNumber(TrailingLineNumber(line).value)
    else if IsSectionHeader(line) then Header
    else if IsAmendmentTitle(line) then Title
    else if IsLcoLine(line) || IsPageNumber(line) then Marker
    else if IsActTitle(line) then ActTitle
    else Other
  }

  /** How a line of kind `k` enters the output. Lines already out are never
      touched, except that a merge extends the last one; a merge only
      extends a numbered line, never with a heading, and never past the
      length limit. */
  function Place(out: seq<string>, line: string, k: LineKind): (r: seq<string>)
    requires k.MovedNumber? ==> |k.rn.number| > 0 && AllDigits(k.rn.number)
    requires k.MovedNumber? ==> |k.rn.number| + 1 + |k.rn.text| <= |line|
    ensures |out| <= |r| <= |out| + 3
    ensures forall i :: |out| <= i < |r| ==> |r[i]| <= |line|
    ensures |r| > |out| ==> forall i :: 0 <= i < |out| ==> r[i] == out[i]
    ensures |r| == |out| ==>
      && k == Other
      && MergedInto(out, line, r)
      && CanContinue(out[|out| - 1], line)
      && |r[|out| - 1]| <= MaxMergedLength
    ensures
      && NoNewlines(out) && NoNewline(line)
      && (k.MovedNumber? ==> NoNewline(Renumber(k.rn)))
      ==> NoNewlines(r)
  {
    match k
    case Blank => out + [""]
    case Kept => out + [line]
    case MovedNumber(rn) => out + [Renumber(rn)]
    case Header => Separate(out) + [line]
    case Title => Separate(out) + [line, ""]
    case Marker => out + [line]
    case ActTitle =>
      assert NoNewline(line) ==> NoNewline(Upper(line)) by {
        UpperKeepsNewlines(line);
      }
      Separate(out) + [Upper(line), ""]
    case Other =>
      if CanContinue(Last(out), line) then
        Continue(out, line)
      else out + [line]
  }

  /** One iteration of the main loop. */
  function Step(out: seq<string>, line: string): (r: seq<string>)
    ensures |out| <= |r| <= |out| + 3
    ensures forall i :: |out| <= i < |r| ==> |r[i]| <= |line|
    ensures |r| > |out| ==> forall i :: 0 <= i < |out| ==> r[i] == out[i]
    ensures |r| == |out| ==>
      && MergedInto(out, line, r)
      && CanContinue(out[|out| - 1], line)
      && |r[|out| - 1]| <= MaxMergedLength
    ensures NoNewlines(out) && NoNewline(line) ==> NoNewlines(r)
  {
    var k := Classify(line);
    if k.MovedNumber? && NoNewline(line) then
      RenumberNoNewline(line);
      Place(out, line, k)
    else
      Place(out, line, k)
  }

  /** Moving the number keeps a line free of line breaks. */
  lemma RenumberNoNewline(line: string)
    requires NoNewline(line) && TrailingLineNumber(line).Some?
    ensures NoNewline(Renumber(TrailingLineNumber(line).value))
  {
    var rn := TrailingLineNumber(line).value;
    var d := SpanBack(line, |line|, IsDigit);
    var w := SpanBack(line, d, IsSpace);
    assert rn.text == Trim(line[..w]);
    assert NoNewline(line[..w]) by {
      forall k | 0 <= k < w ensures line[..w][k] != '\n' {
        assert line[k] in line;
      }
    }
    TrimNoNewline(line[..w]);
    var r := Renumber(rn);
    forall k | 0 <= k < |r| ensures r[k] != '\n' {
      if k < |rn.number| {
        assert IsDigit(rn.number[k]);
      } else if k > |rn.number| {
        assert r[k] == rn.text[k - |rn.number| - 1];
        assert rn.text[k - |rn.number| - 1] in rn.text;
      }
    }
  }

  /** Appends `line` to the last line of `out`. */
  function Continue(out: seq<string>, line: string): (r: seq<string>)
    requires |out| > 0
    ensures MergedInto(out, line, r)
    ensures NoNewlines(out) && NoNewline(line) ==> NoNewlines(r)
  {
    out[..|out| - 1] + [out[|out| - 1] + " " + line]
  }

  /** Blank, numbered and attribution lines are kept exactly. */
  lemma StepPassesThrough(out: seq<string>, line: string)
    requires PassesThrough(line)
    ensures Step(out, line) == out + [line]
  {
  }

  /** A number at the end of any other line is moved to its front; the
      line gets no longer. */
  lemma StepRenumbers(out: seq<string>, line: string)
    requires !PassesThrough(line) && TrailingLineNumber(line).Some?
    ensures var rn := TrailingLineNumber(line).value;
      var r := Step(out, line);
      && r == out + [rn.number + " " + rn.text]
      && r[|r| - 1] == rn.number + " " + Trim(line[..|line| - |rn.number|])
      && StartsWithLineNumber(r[|r| - 1])
      && |r[|r| - 1]| <= |line|
  {
    var rn := TrailingLineNumber(line).value;
    assert SplitsOffNumber(line, rn);
    StepMovesNumber(out, line, rn);
  }

  /** A line classified as carrying a trailing number is emitted as that
      number, a space and the text. */
  lemma StepMovesNumber(out: seq<string>, line: string, rn: Renumbered)
    requires Classify(line) == MovedNumber(rn)
    ensures var r := Step(out, line);
      && r == out + [rn.number + " " + rn.text]
      && StartsWithLineNumber(r[|r| - 1])
      && |r[|r| - 1]| <= |line|
  {
  }

  /** A section header is preceded by a blank line unless it is the first line. */
  lemma PlaceSeparatesHeader(out: seq<string>, line: string)
    ensures var r := Place(out, line, Header);
      && r[|r| - 1] == line
      && (|r| >= 2 ==> r[|r| - 2] == "")
      && (|out| > 0 ==> |r| >= 2)
  {
  }

  /** An amendment title gets a blank line after it, and one before it
      unless it is the first line. */
  lemma PlaceSeparatesTitle(out: seq<string>, line: string)
    ensures var r := Place(out, line, Title);
      && |r| >= 2 && r[|r| - 2] == line && r[|r| - 1] == ""
      && (|r| >= 3 ==> r[|r| - 3] == "")
      && (|out| > 0 ==> |r| >= 3)
  {
  }

  /** A line quoting an act title is upper-cased and set off the same way. */
  lemma PlaceSeparatesActTitle(out: seq<string>, line: string)
    ensures var r := Place(out, line, ActTitle);
      && |r| >= 2 && r[|r| - 2] == Upper(line) && r[|r| - 1] == ""
      && (|r| >= 3 ==> r[|r| - 3] == "")
      && (|out| > 0 ==> |r| >= 3)
  {
  }

  /** Folds the remaining `lines` into `out`, one `Step` at a time. */
  function FormatFrom(out: seq<string>, lines: seq<string>): (r: seq<string>)
    ensures |r| >= |out|
    ensures |lines| > 0 ==> |r| > 0
    ensures forall i :: 0 <= i < |out| - 1 ==> r[i] == out[i]
    ensures NoNewlines(out) && NoNewlines(lines) ==> NoNewlines(r)
    decreases |lines|
  {
    if |lines| == 0 then out
    else
      var next := Step(out, lines[0]);
      assert NoNewlines(lines) ==> NoNewline(lines[0]) && NoNewlines(lines[1..]);
      FormatFrom(next, lines[1..])
  }

  /** The main loop over all lines. */
  function FormatLines(lines: seq<string>): (r: seq<string>)
    ensures NoNewlines(lines) ==> NoNewlines(r)
    ensures |lines| > 0 ==> |r| > 0
  {
    FormatFrom([], lines)
  }

  function Max(a: nat, b: nat): nat { if a < b then b else a }

  /** The continuation rule is what keeps lines short: every line of the
      output is at most 120 characters long or no longer than the longest
      line it was given. */
  lemma {:induction false} FormatFromBound(out: seq<string>, lines: seq<string>, m: nat)
    requires forall i :: 0 <= i < |out| ==> |out[i]| <= Max(MaxMergedLength, m)
    requires forall i :: 0 <= i < |lines| ==> |lines[i]| <= m
    ensures forall i :: 0 <= i < |FormatFrom(out, lines)| ==> |FormatFrom(out, lines)[i]| <= Max(MaxMergedLength, m)
    decreases |lines|
  {
    if |lines| > 0 {
      var next := Step(out, lines[0]);
      assert forall i :: 0 <= i < |next| ==> |next[i]| <= Max(MaxMergedLength, m);
      FormatFromBound(next, lines[1..], m);
    }
  }

  lemma FormatLinesBound(lines: seq<string>, m: nat)
    requires forall i :: 0 <= i < |lines| ==> |lines[i]| <= m
    ensures forall i :: 0 <= i < |FormatLines(lines)| ==> |FormatLines(lines)[i]| <= Max(MaxMergedLength, m)
  {
    FormatFromBound([], lines, m);
  }

  // ---------------------------------------------------------------------
  // Stage 3: whole-text rewrites
  // ---------------------------------------------------------------------

  /** The rewrites in the order the route applies them. The pass that
      re-indents multi-line quoted blocks is left out: its pattern is
      `^"(.+)"$` with `.` never matching a line break, so its multi-line
      branch can never run and every match is replaced by itself. */
  function PostProcess(t: string): (r: string)
    ensures NoTripleBreak(r)
  {
    var t1 := ReplaceAll(t, DistrictSuffixRule);
    var t2 := ReplaceAll(t1, SpaceBeforeCloserRule);
    var t3 := ReplaceAll(t2, SpaceAfterOpenerRule);
    var t4 := ReplaceAll(t3, BreakRunRule);
    var t5 := ReplaceAll(t4, QuoteTrimRule);
    var t6 := ReplaceAll(t5, ActTitleCaseRule);
    var t7 := ReplaceAll(t6, PeriodSpaceRule);
    var t8 := ReplaceAll(t7, NumberParenRule);
    var t9 := ReplaceAll(t8, RangeRule);
    CollapseBreaks(t3);
    QuoteTrimSafe();
    ReplaceKeeps(t4, QuoteTrimRule);
    ActTitleCaseSafe();
    ReplaceKeeps(t5, ActTitleCaseRule);
    PeriodSpaceSafe();
    ReplaceKeeps(t6, PeriodSpaceRule);
    NumberParenSafe();
    ReplaceKeeps(t7, NumberParenRule);
    RangeSafe();
    ReplaceKeeps(t8, RangeRule);
    CommaSpaceSafe();
    ReplaceKeeps(t9, CommaSpaceRule);
    ReplaceAll(t9, CommaSpaceRule)
  }

  /** The lines handed to the fold: split, trimmed, district references re-joined. */
  function PreparedLines(text: string): (r: seq<string>)
    ensures NoNewlines(r)
    ensures |r| == |Split(text)|
  {
    var lines := TrimAll(Split(text));
    assert NoNewlines(lines) by {
      forall i | 0 <= i < |lines| ensures NoNewline(lines[i]) {
        TrimNoNewline(Split(text)[i]);
      }
    }
    JoinDistricts(lines)
  }

  lemma TrimNoNewline(s: string)
    requires NoNewline(s)
    ensures NoNewline(Trim(s))
  {
    var a := SpanFrom(s, 0, IsSpace);
    var t := Trim(s);
    assert t == s[a..a + |t|];
  }

  /** `improveTextFormatting(text)`: empty text comes back as it is; any
      other text is reformatted, and the result never holds more than one
      blank line in a row. */
  function ImproveTextFormatting(text: string): (r: string)
    ensures text == "" ==> r == ""
    ensures NoTripleBreak(r)
  {
    if text == "" then text
    else PostProcess(Join(FormatLines(PreparedLines(text))))
  }

  /** The line structure survives joining: splitting the joined lines of
      the fold gives back exactly those lines, so the rewrites start from
      the lines the fold built. */
  lemma FormattedLinesSurviveJoin(text: string)
    ensures Split(Join(FormatLines(PreparedLines(text)))) == FormatLines(PreparedLines(text))
  {
    SplitJoin(FormatLines(PreparedLines(text)));
  }
}
