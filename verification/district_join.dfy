/**
  The first pass of `improveTextFormatting`: a legislator attribution
  whose district the PDF broke over three lines (`SEN. SMITH, 11`, then
  `th`, then `Dist.`) is glued back into one line, and the two lines it
  took are left empty so that the line count does not change.

  The pass is written once for any "head" test on the first line and
  "tail" test on the next two, and proved against a per-line description
  under one assumption: no line that can be a tail piece can also be a
  head. The source's district tests meet that assumption.
 */
module DistrictJoin {
  import opened Text
  import opened Patterns

  /** Lines `i`, `i + 1` and `i + 2` form a split reference. */
  predicate SplitAt(ls: seq<string>, i: nat, head: string -> bool, tail: (string, string) -> bool) {
    i + 2 < |ls| && head(ls[i]) && tail(ls[i + 1], ls[i + 2])
  }

  /** The three pieces glued into one line: `SEN. SMITH, 11th Dist.`. */
  function Glued(ls: seq<string>, i: nat): string
    requires i + 2 < |ls|
  {
    ls[i] + ls[i + 1] + " " + ls[i + 2]
  }

  /** Neither tail piece can start a split reference. */
  ghost predicate Disjoint(head: string -> bool, tail: (string, string) -> bool) {
    forall b, c :: tail(b, c) ==> !head(b) && !head(c)
  }

  /** The source's loop: scanning from the top, each split reference is
      glued into its first line and its other two lines become empty. The
      loop then moves on by one line, but the two emptied lines can never
      start a reference, so moving on by three is the same. */
  function JoinSplits(ls: seq<string>, head: string -> bool, tail: (string, string) -> bool): (r: seq<string>)
    ensures |r| == |ls|
    decreases |ls|
  {
    if |ls| == 0 then []
    else if SplitAt(ls, 0, head, tail) then [Glued(ls, 0), "", ""] + JoinSplits(ls[3..], head, tail)
    else [ls[0]] + JoinSplits(ls[1..], head, tail)
  }

  /** What the pass leaves at index `i`, stated per line: the glued line
      where a split reference starts, an empty line for its other two
      lines, and the line itself everywhere else. */
  function JoinedLine(ls: seq<string>, i: nat, head: string -> bool, tail: (string, string) -> bool): string
    requires i < |ls|
  {
    if SplitAt(ls, i, head, tail) then Glued(ls, i)
    else if (i >= 1 && SplitAt(ls, i - 1, head, tail)) || (i >= 2 && SplitAt(ls, i - 2, head, tail)) then ""
    else ls[i]
  }

  lemma SplitAtShift(ls: seq<string>, k: nat, i: nat, head: string -> bool, tail: (string, string) -> bool)
    requires k <= i && k <= |ls|
    ensures SplitAt(ls, i, head, tail) == SplitAt(ls[k..], i - k, head, tail)
  {
    if i + 2 < |ls| {
      assert ls[k..][i - k] == ls[i] && ls[k..][i - k + 1] == ls[i + 1] && ls[k..][i - k + 2] == ls[i + 2];
    }
  }

  lemma JoinedLineShift(ls: seq<string>, k: nat, i: nat, head: string -> bool, tail: (string, string) -> bool)
    requires k <= i < |ls|
    requires forall j: nat :: i - 2 <= j < k ==> !SplitAt(ls, j, head, tail)
    ensures JoinedLine(ls, i, head, tail) == JoinedLine(ls[k..], i - k, head, tail)
  {
    var t := ls[k..];
    SplitAtShift(ls, k, i, head, tail);
    if i - 1 >= k {
      SplitAtShift(ls, k, i - 1, head, tail);
    }
    if i - 2 >= k {
      SplitAtShift(ls, k, i - 2, head, tail);
    }
    assert t[i - k] == ls[i];
    if SplitAt(ls, i, head, tail) {
      assert t[i - k + 1] == ls[i + 1] && t[i - k + 2] == ls[i + 2];
      assert Glued(t, i - k) == Glued(ls, i);
    }
  }

  /** The scan agrees with the per-line description at every index. */
  lemma {:induction false} JoinSplitsAt(ls: seq<string>, head: string -> bool, tail: (string, string) -> bool)
    requires Disjoint(head, tail)
    ensures forall i :: 0 <= i < |ls| ==> JoinSplits(ls, head, tail)[i] == JoinedLine(ls, i, head, tail)
    decreases |ls|
  {
    if |ls| > 0 {
      var r := JoinSplits(ls, head, tail);
      if SplitAt(ls, 0, head, tail) {
        var t := ls[3..];
        JoinSplitsAt(t, head, tail);
        assert !SplitAt(ls, 1, head, tail) && !SplitAt(ls, 2, head, tail);
        forall i | 0 <= i < |ls| ensures r[i] == JoinedLine(ls, i, head, tail) {
          if i >= 3 {
            JoinedLineShift(ls, 3, i, head, tail);
            assert r[i] == JoinSplits(t, head, tail)[i - 3];
          }
        }
      } else {
        var t := ls[1..];
        JoinSplitsAt(t, head, tail);
        forall i | 0 <= i < |ls| ensures r[i] == JoinedLine(ls, i, head, tail) {
          if i >= 1 {
            JoinedLineShift(ls, 1, i, head, tail);
            assert r[i] == JoinSplits(t, head, tail)[i - 1];
          }
        }
      }
    }
  }

  // ---------------------------------------------------------------------
  // The district references
  // ---------------------------------------------------------------------

  /** An attribution ending in a bare district number: `SEN. SMITH, 11`. */
  predicate DistrictHead(a: string) {
    IsAttribution(a) && EndsWithPartialDistrict(a)
  }

  /** The ordinal suffix alone on one line and `Dist.` alone on the next. */
  predicate DistrictTail(b: string, c: string) {
    IsOrdinalLine(b) && IsDistLine(c)
  }

  /** An ordinal line is too short to be an attribution, and a `Dist.` line
      starts with the wrong letter. */
  lemma DistrictPiecesDisjoint()
    ensures Disjoint(DistrictHead, DistrictTail)
  {
    forall b, c | DistrictTail(b, c) ensures !DistrictHead(b) && !DistrictHead(c) {
      assert LowerChar(c[0]) == 'd' by {
        assert Lower(c)[0] == 'd';
      }
      assert !IsAttribution(c) by {
        if |c| >= 4 {
          assert Lower(c[..4])[0] == LowerChar(c[0]);
        }
      }
    }
  }

  /** The first pass of the formatter over its trimmed lines: the line
      count is unchanged, each split reference is glued into its first
      line, its other two lines become empty, and every other line is
      kept as it is. */
  function JoinDistricts(ls: seq<string>): (r: seq<string>)
    ensures |r| == |ls|
    ensures forall i :: 0 <= i < |ls| ==> r[i] == JoinedLine(ls, i, DistrictHead, DistrictTail)
  {
    DistrictPiecesDisjoint();
    JoinSplitsAt(ls, DistrictHead, DistrictTail);
    JoinSplits(ls, DistrictHead, DistrictTail)
  }
}
