/**
  The body-only view of an extracted PDF text: a single pass over the
  lines that drops page furniture and everything before the legislative
  body begins, followed by whitespace and punctuation clean-up.

  The pass carries one flag, "the body has started". It is raised by the
  first non-blank line that starts with `Section` or contains `AN ACT` or
  `AMENDMENT`, and it is never lowered.
 */
module BodyFilter {
  import opened Text
  import opened Wrappers
  import opened Patterns
  import opened Rewrites
  import Seqs

  // ---------------------------------------------------------------------
  // Line classes
  // ---------------------------------------------------------------------

  /** Page counters, LCO headers, legislator lines, district references,
      dates, bare numbers and file / calendar / substitute headers. */
  predicate IsBoilerplate(t: string) {
    || IsPageNumber(t) || IsLcoLine(t) || IsAttribution(t) || EndsWithDistrictRef(t)
    || IsDateLine(t) || IsBareNumber(t) || IsHeaderFooter(t)
  }

  /** A line that shows the body has begun (case-sensitive). */
  predicate IsTrigger(t: string) {
    StartsWith(t, "Section") || Contains(t, "AN ACT") || Contains(t, "AMENDMENT")
  }

  // ---------------------------------------------------------------------
  // Whitespace runs
  // ---------------------------------------------------------------------

  /** `/\s+/g`: a maximal run of white space. */
  function SpaceRunRule(s: string): Option<Hit> {
    var n := SpanFrom(s, 0, IsSpace);
    if n > 0 then Some(Hit(n, " ")) else None
  }

  /** `s.replace(/\s+/g, " ")` */
  function Squeeze(s: string): string {
    ReplaceAll(s, SpaceRunRule)
  }

  /** Every white-space character is a plain space and no two follow each other. */
  predicate Squeezed(s: string) {
    forall k :: 0 <= k < |s| && IsSpace(s[k]) ==> s[k] == ' ' && (k + 1 < |s| ==> !IsSpace(s[k + 1]))
  }

  lemma ConsSqueezed(c: char, x: string)
    requires Squeezed(x)
    requires IsSpace(c) ==> c == ' ' && (|x| > 0 ==> !IsSpace(x[0]))
    ensures Squeezed([c] + x)
  {
    var r := [c] + x;
    forall k | 0 <= k < |r| && IsSpace(r[k])
      ensures r[k] == ' ' && (k + 1 < |r| ==> !IsSpace(r[k + 1]))
    {
      if k > 0 {
        assert r[k] == x[k - 1];
        if k + 1 < |r| {
          assert r[k + 1] == x[k];
        }
      }
    }
  }

  /** Collapsing white-space runs leaves every run a single space, and
      the text starts with white space exactly when the input did. */
  lemma {:induction false} SqueezeIsSqueezed(s: string)
    ensures Squeezed(Squeeze(s))
    ensures |Squeeze(s)| == 0 <==> |s| == 0
    ensures |s| > 0 ==> (IsSpace(Squeeze(s)[0]) <==> IsSpace(s[0]))
    decreases |s|
  {
    if |s| > 0 {
      ReplaceAllStep(s, SpaceRunRule);
      var n := SpanFrom(s, 0, IsSpace);
      if n > 0 {
        SqueezeIsSqueezed(s[n..]);
        assert n < |s| ==> s[n..][0] == s[n];
        ConsSqueezed(' ', Squeeze(s[n..]));
      } else {
        SqueezeIsSqueezed(s[1..]);
        ConsSqueezed(s[0], Squeeze(s[1..]));
      }
    }
  }

  /** Collapsing white space keeps every other character, in order. */
  lemma {:induction false} SqueezeKeepsText(s: string)
    ensures Seqs.Filter(Squeeze(s), NotSpace) == Seqs.Filter(s, NotSpace)
    decreases |s|
  {
    if |s| > 0 {
      ReplaceAllStep(s, SpaceRunRule);
      var n := SpanFrom(s, 0, IsSpace);
      if n > 0 {
        SqueezeKeepsText(s[n..]);
        SkipSpaces(s, n);
        assert ([' '] + Squeeze(s[n..]))[1..] == Squeeze(s[n..]);
      } else {
        SqueezeKeepsText(s[1..]);
        assert ([s[0]] + Squeeze(s[1..]))[1..] == Squeeze(s[1..]);
      }
    }
  }

  /** The normalised form of a kept line: its leading white space, then
      the trimmed line with every white-space run collapsed. The lines
      reaching here are already trimmed, so the leading part is empty. */
  function Normalize(t: string): (r: string)
    ensures Trim(t) == t ==> r == Squeeze(t)
  {
    var lead := SpanFrom(t, 0, IsSpace);
    assert Trim(t) == t && |t| > 0 ==> lead == 0;
    t[..lead] + Squeeze(Trim(t))
  }

  // ---------------------------------------------------------------------
  // The line pass
  // ---------------------------------------------------------------------

  /** The flag after a line, and what the line contributes to the output. */
  datatype Visit = Visit(started: bool, out: Option<string>)

  /** One turn of the loop: the line is trimmed; a blank line is kept (as
      an empty line) only once the body has started; any other line may
      raise the flag, and is kept, normalised, when it is not boilerplate
      and the body has started. */
  function VisitLine(started: bool, line: string): (v: Visit)
    ensures v.started <==> started || IsTrigger(Trim(line))
    ensures Trim(line) == "" ==> v.out == (if started then Some("") else None)
    ensures Trim(line) != "" ==> (v.out.Some? <==> !IsBoilerplate(Trim(line)) && v.started)
    ensures Trim(line) != "" && v.out.Some? ==> v.out.value == Squeeze(Trim(line))
  {
    var t := Trim(line);
    if t == "" then
      Visit(started, if started then Some("") else None)
    else
      var skip := IsBoilerplate(t);
      var on := started || IsTrigger(t);
      TrimIdempotent(line);
      if !skip && (on || StartsWith(t, "Section")) then Visit(on, Some(Normalize(t)))
      else Visit(on, None)
  }

  /** The kept lines of `lines`, given the flag before the first of them. */
  function FilterLines(lines: seq<string>, started: bool): (r: seq<string>)
    ensures |r| <= |lines|
  {
    if |lines| == 0 then []
    else
      var v := VisitLine(started, lines[0]);
      var rest := FilterLines(lines[1..], v.started);
      match v.out
      case None => rest
      case Some(x) => [x] + rest
  }

  /** Whether a line raises the flag. */
  predicate Raises(line: string) { IsTrigger(Trim(line)) }

  /** `visit` raises the flag exactly on the lines `raises` names, and never lowers it. */
  ghost predicate FlagRule(visit: (bool, string) -> Visit, raises: string -> bool) {
    forall on, line :: visit(on, line).started == (on || raises(line))
  }

  lemma VisitLineFlagRule()
    ensures FlagRule(VisitLine, Raises)
  {
  }

  /** The flag is up before line `i` when it was up at the start or one of
      the lines before `i` raises it. */
  ghost predicate StartedBefore(raises: string -> bool, started: bool, lines: seq<string>, i: nat)
    requires i <= |lines|
  {
    started || exists j :: 0 <= j < i && raises(lines[j])
  }

  lemma StartedBeforeShift(visit: (bool, string) -> Visit, raises: string -> bool,
                           started: bool, lines: seq<string>, i: nat)
    requires FlagRule(visit, raises)
    requires 0 < i <= |lines|
    ensures StartedBefore(raises, started, lines, i)
        <==> StartedBefore(raises, visit(started, lines[0]).started, lines[1..], i - 1)
  {
    if exists j :: 0 <= j < i && raises(lines[j]) {
      var j :| 0 <= j < i && raises(lines[j]);
      if j > 0 {
        assert lines[1..][j - 1] == lines[j];
      }
    }
    if exists j :: 0 <= j < i - 1 && raises(lines[1..][j]) {
      var j :| 0 <= j < i - 1 && raises(lines[1..][j]);
      assert lines[1..][j] == lines[j + 1];
    }
  }

  /** What each line contributes, read line by line: line `i` is visited
      under the flag its predecessors set. */
  ghost function ByLine(visit: (bool, string) -> Visit, raises: string -> bool,
                        started: bool, lines: seq<string>): seq<Option<string>>
  {
    seq(|lines|, i requires 0 <= i < |lines| => visit(StartedBefore(raises, started, lines, i), lines[i]).out)
  }

  lemma ByLineShift(visit: (bool, string) -> Visit, raises: string -> bool,
                    started: bool, lines: seq<string>)
    requires FlagRule(visit, raises)
    requires |lines| > 0
    ensures ByLine(visit, raises, started, lines)
         == [visit(started, lines[0]).out] + ByLine(visit, raises, visit(started, lines[0]).started, lines[1..])
  {
    var v := visit(started, lines[0]);
    var tail := lines[1..];
    var all := ByLine(visit, raises, started, lines);
    var rest := ByLine(visit, raises, v.started, tail);
    forall i | 0 <= i < |tail| ensures all[i + 1] == rest[i] {
      StartedBeforeShift(visit, raises, started, lines, i + 1);
      assert lines[i + 1] == tail[i];
    }
    assert all[0] == v.out;
    assert all == [v.out] + rest;
  }

  /** The loop agrees with the line-by-line reading. */
  lemma {:induction false} FilterLinesByLine(lines: seq<string>, started: bool)
    ensures FilterLines(lines, started) == Seqs.Somes(ByLine(VisitLine, Raises, started, lines))
    decreases |lines|
  {
    if |lines| > 0 {
      var v := VisitLine(started, lines[0]);
      var rest := ByLine(VisitLine, Raises, v.started, lines[1..]);
      FilterLinesByLine(lines[1..], v.started);
      VisitLineFlagRule();
      ByLineShift(VisitLine, Raises, started, lines);
      assert ([v.out] + rest)[1..] == rest;
    }
  }

  /** Nothing before the first trigger reaches the output: dropping those
      lines leaves the result unchanged. */
  lemma {:induction false} NothingBeforeTrigger(lines: seq<string>, i: nat)
    requires i <= |lines|
    requires forall j :: 0 <= j < i ==> !IsTrigger(Trim(lines[j]))
    ensures FilterLines(lines, false) == FilterLines(lines[i..], false)
  {
    if i > 0 {
      var v := VisitLine(false, lines[0]);
      assert !v.started && v.out.None?;
      assert lines[1..][i - 1..] == lines[i..];
      NothingBeforeTrigger(lines[1..], i - 1);
    }
  }

  /** Every kept line is blank or the collapsed form of an input line that
      is not boilerplate. */
  lemma {:induction false} KeptLinesAreBody(lines: seq<string>, started: bool)
    ensures forall x :: x in FilterLines(lines, started) ==>
      x == "" || exists i :: 0 <= i < |lines| && !IsBoilerplate(Trim(lines[i])) && x == Squeeze(Trim(lines[i]))
  {
    if |lines| > 0 {
      var v := VisitLine(started, lines[0]);
      KeptLinesAreBody(lines[1..], v.started);
      forall x | x in FilterLines(lines, started) && x != ""
        ensures exists i :: 0 <= i < |lines| && !IsBoilerplate(Trim(lines[i])) && x == Squeeze(Trim(lines[i]))
      {
        if x in FilterLines(lines[1..], v.started) {
          var i :| 0 <= i < |lines| - 1 && !IsBoilerplate(Trim(lines[1..][i])) && x == Squeeze(Trim(lines[1..][i]));
          assert lines[1..][i] == lines[i + 1];
        } else {
          assert x == v.out.value;
        }
      }
    }
  }

  /** With no trigger anywhere, nothing is kept. */
  lemma NoTriggerNothingKept(lines: seq<string>)
    ensures (forall j :: 0 <= j < |lines| ==> !IsTrigger(Trim(lines[j]))) ==> FilterLines(lines, false) == []
  {
    if forall j :: 0 <= j < |lines| ==> !IsTrigger(Trim(lines[j])) {
      NothingBeforeTrigger(lines, |lines|);
    }
  }

  // ---------------------------------------------------------------------
  // The whole filter
  // ---------------------------------------------------------------------

  /** The punctuation passes in source order: white space before `.,;:)`
      is removed, then white space after `(` or `{`, then a space goes
      after a comma and after a period that a word character follows, and
      last the white space around the hyphen of each `word - word` match is
      removed. That last pass resumes after the second word, so in
      `a - b - c` only the first hyphen is closed up. Whatever the input,
      no spacing fault that the first four passes remove is left, because
      each later pass only touches characters that cannot form one. */
  function Tidy(t: string): (r: string)
    ensures NoSpaceBeforeCloser(r) && NoSpaceAfterOpener(r)
    ensures NoPair(r, CommaThenWord) && NoPair(r, PeriodThenWord)
  {
    var a := ReplaceAll(t, SpaceBeforeCloserRule);
    CloserPassClean(t);
    CloserGapPairs(a);
    var b := ReplaceAll(a, SpaceAfterOpenerRule);
    OpenerStage(a);
    var c := ReplaceAll(b, CommaSpaceRule);
    CommaStage(b);
    var d := ReplaceAll(c, PeriodSpaceRule);
    PeriodStage(c);
    var r := ReplaceAll(d, RangeRule);
    RangeStage(d);
    CloserGapPairs(r);
    OpenerGapPairs(r);
    r
  }

  lemma OpenerStage(a: string)
    requires NoPair(a, SpaceThenCloser)
    ensures NoPair(ReplaceAll(a, SpaceAfterOpenerRule), SpaceThenCloser)
    ensures NoPair(ReplaceAll(a, SpaceAfterOpenerRule), OpenerThenSpace)
  {
    OpenerKeepsCloserGap();
    PassKeepsPairs(a, SpaceAfterOpenerRule, SpaceThenCloser);
    OpenerPassClean(a);
    OpenerGapPairs(ReplaceAll(a, SpaceAfterOpenerRule));
  }

  lemma CommaStage(b: string)
    requires NoPair(b, SpaceThenCloser) && NoPair(b, OpenerThenSpace)
    ensures var c := ReplaceAll(b, CommaSpaceRule);
      NoPair(c, SpaceThenCloser) && NoPair(c, OpenerThenSpace) && NoPair(c, CommaThenWord)
  {
    MarkPassKeepsPairs(',', CommaSpaceRule, b, SpaceThenCloser);
    MarkPassKeepsPairs(',', CommaSpaceRule, b, OpenerThenSpace);
    CommaPassClean(b);
  }

  lemma PeriodStage(c: string)
    requires NoPair(c, SpaceThenCloser) && NoPair(c, OpenerThenSpace) && NoPair(c, CommaThenWord)
    ensures var d := ReplaceAll(c, PeriodSpaceRule);
      && NoPair(d, SpaceThenCloser) && NoPair(d, OpenerThenSpace)
      && NoPair(d, CommaThenWord) && NoPair(d, PeriodThenWord)
  {
    MarkPassKeepsPairs('.', PeriodSpaceRule, c, SpaceThenCloser);
    MarkPassKeepsPairs('.', PeriodSpaceRule, c, OpenerThenSpace);
    MarkPassKeepsPairs('.', PeriodSpaceRule, c, CommaThenWord);
    PeriodPassClean(c);
  }

  lemma RangeStage(d: string)
    requires && NoPair(d, SpaceThenCloser) && NoPair(d, OpenerThenSpace)
             && NoPair(d, CommaThenWord) && NoPair(d, PeriodThenWord)
    ensures var r := ReplaceAll(d, RangeRule);
      && NoPair(r, SpaceThenCloser) && NoPair(r, OpenerThenSpace)
      && NoPair(r, CommaThenWord) && NoPair(r, PeriodThenWord)
  {
    SpacingPairsHyphenSafe();
    RangePassKeepsPairs(d, SpaceThenCloser);
    RangePassKeepsPairs(d, OpenerThenSpace);
    RangePassKeepsPairs(d, CommaThenWord);
    RangePassKeepsPairs(d, PeriodThenWord);
  }

  /** The body-only text: the kept lines joined with line breaks, then
      `Tidy`. Its spacing facts hold of the result. */
  function FilterText(text: string): (r: string)
    ensures text == "" ==> r == ""
    ensures (forall j :: 0 <= j < |Split(text)| ==> !IsTrigger(Trim(Split(text)[j]))) ==> r == ""
    ensures NoSpaceBeforeCloser(r) && NoSpaceAfterOpener(r)
    ensures NoPair(r, CommaThenWord) && NoPair(r, PeriodThenWord)
  {
    if text == "" then text
    else
      var kept := FilterLines(Split(text), false);
      NoTriggerNothingKept(Split(text));
      Tidy(Join(kept))
  }
}
