/**
  How the comparison view presents a line diff. The diff itself comes
  from a library and is taken as given: a sequence of parts, each a piece
  of text flagged as added (only in the right document), removed (only in
  the left one) or neither (in both).

  The side-by-side view draws the left document from the parts that are
  not added and the right document from the parts that are not removed;
  the combined view lists every line of every non-blank part behind a
  two-character marker.
 */
module DiffView {
  import opened Text
  import Seqs

  datatype Part = Part(value: string, added: bool, removed: bool)

  predicate OnLeft(p: Part) { !p.added }
  predicate OnRight(p: Part) { !p.removed }

  /** The text of a sequence of parts, in order. */
  function Concat(parts: seq<Part>): string {
    if |parts| == 0 then "" else parts[0].value + Concat(parts[1..])
  }

  /** What the diff library guarantees: the left document is the text of
      the parts that are not added, the right one that of the parts that
      are not removed. */
  function LeftText(parts: seq<Part>): string { Concat(Seqs.Filter(parts, OnLeft)) }
  function RightText(parts: seq<Part>): string { Concat(Seqs.Filter(parts, OnRight)) }

  // ---------------------------------------------------------------------
  // Side by side
  // ---------------------------------------------------------------------

  datatype Shade = Plain | Amber | Blue

  /** One part as a pane draws it: a background and one row per line. */
  datatype Block = Block(shade: Shade, rows: seq<string>)

  /** An empty line is drawn as a line break so that it keeps its height. */
  function Row(line: string): string { if line == "" then "\n" else line }

  /** The line a row stands for. */
  function Unrow(row: string): string { if row == "\n" then "" else row }

  /** The rows for a part's text: one per piece of `split("\n")`. */
  function Rows(value: string): (r: seq<string>)
    ensures |r| == |Split(value)|
    ensures forall i :: 0 <= i < |r| ==> Unrow(r[i]) == Split(value)[i]
  {
    var lines := Split(value);
    seq(|lines|, i requires 0 <= i < |lines| => Row(lines[i]))
  }

  function Unrows(rows: seq<string>): (r: seq<string>)
    ensures |r| == |rows| && forall i :: 0 <= i < |r| ==> r[i] == Unrow(rows[i])
  {
    seq(|rows|, i requires 0 <= i < |rows| => Unrow(rows[i]))
  }

  /** The text a block stands for. */
  function BlockText(b: Block): string {
    Join(Unrows(b.rows))
  }

  /** Reading a part's rows back gives the part's text. */
  lemma RowsRebuild(value: string, shade: Shade)
    ensures BlockText(Block(shade, Rows(value))) == value
  {
    var rows := Rows(value);
    assert Unrows(rows) == Split(value);
    JoinSplit(value);
  }

  function LeftBlock(p: Part): Block { Block(if p.removed then Amber else Plain, Rows(p.value)) }
  function RightBlock(p: Part): Block { Block(if p.added then Blue else Plain, Rows(p.value)) }

  /** The left pane: added parts are skipped, removed parts shaded amber. */
  function LeftPane(parts: seq<Part>): (r: seq<Block>)
    ensures var shown := Seqs.Filter(parts, OnLeft);
      |r| == |shown| && forall i :: 0 <= i < |r| ==> r[i] == LeftBlock(shown[i])
  {
    if |parts| == 0 then []
    else
      var rest := LeftPane(parts[1..]);
      if parts[0].added then rest else [LeftBlock(parts[0])] + rest
  }

  /** The right pane: removed parts are skipped, added parts shaded blue. */
  function RightPane(parts: seq<Part>): (r: seq<Block>)
    ensures var shown := Seqs.Filter(parts, OnRight);
      |r| == |shown| && forall i :: 0 <= i < |r| ==> r[i] == RightBlock(shown[i])
  {
    if |parts| == 0 then []
    else
      var rest := RightPane(parts[1..]);
      if parts[0].removed then rest else [RightBlock(parts[0])] + rest
  }

  /** The text a pane stands for: its blocks' texts in order. */
  function PaneText(blocks: seq<Block>): string {
    if |blocks| == 0 then "" else BlockText(blocks[0]) + PaneText(blocks[1..])
  }

  /** The left pane reads back as the left document. */
  lemma {:induction false} LeftPaneShowsLeftText(parts: seq<Part>)
    ensures PaneText(LeftPane(parts)) == LeftText(parts)
  {
    if |parts| > 0 {
      LeftPaneShowsLeftText(parts[1..]);
      RowsRebuild(parts[0].value, if parts[0].removed then Amber else Plain);
      if !parts[0].added {
        assert ([LeftBlock(parts[0])] + LeftPane(parts[1..]))[1..] == LeftPane(parts[1..]);
        var f := Seqs.Filter(parts[1..], OnLeft);
        assert ([parts[0]] + f)[1..] == f;
      }
    }
  }

  /** The right pane reads back as the right document. */
  lemma {:induction false} RightPaneShowsRightText(parts: seq<Part>)
    ensures PaneText(RightPane(parts)) == RightText(parts)
  {
    if |parts| > 0 {
      RightPaneShowsRightText(parts[1..]);
      RowsRebuild(parts[0].value, if parts[0].added then Blue else Plain);
      if !parts[0].removed {
        assert ([RightBlock(parts[0])] + RightPane(parts[1..]))[1..] == RightPane(parts[1..]);
        var f := Seqs.Filter(parts[1..], OnRight);
        assert ([parts[0]] + f)[1..] == f;
      }
    }
  }

  // ---------------------------------------------------------------------
  // Combined
  // ---------------------------------------------------------------------

  /** `R ` for a line only on the right, `L ` for one only on the left,
      two spaces for a shared line. */
  function Marker(p: Part): string {
    if p.added then "R " else if p.removed then "L " else "  "
  }

  datatype Line = Line(marker: string, text: string)

  datatype Combined = NoDifferences | Lines(lines: seq<Line>)

  const NoDifferencesMessage: string := "No differences found."

  /** A part is drawn unless its text is only white space. */
  predicate HasContent(p: Part) { Trim(p.value) != "" }

  /** The lines of a text as the combined view lists them: the pieces of
      `split("\n")`, without the empty piece a final line break leaves. */
  function ShownLines(value: string): (r: seq<string>)
    ensures NoNewlines(r)
  {
    var lines := Split(value);
    if lines[|lines| - 1] == "" then lines[..|lines| - 1] else lines
  }

  /** Listing a non-empty text's lines loses only its final line break. */
  lemma ShownLinesRebuild(value: string)
    requires value != ""
    ensures Join(ShownLines(value)) + (if value[|value| - 1] == '\n' then "\n" else "") == value
  {
    var lines := Split(value);
    JoinSplit(value);
    SplitLastEmpty(value);
    if value[|value| - 1] == '\n' {
      assert '\n' in value;
      assert |lines| != 1;
      JoinOfNewlineFree(lines, |lines| - 2);
      assert lines[..|lines| - 1] == ShownLines(value);
      assert lines[|lines| - 1..] == [""];
    }
  }

  function PartLines(p: Part): (r: seq<Line>)
    ensures |r| == |ShownLines(p.value)|
    ensures forall i :: 0 <= i < |r| ==> r[i] == Line(Marker(p), ShownLines(p.value)[i])
  {
    var lines := ShownLines(p.value);
    seq(|lines|, i requires 0 <= i < |lines| => Line(Marker(p), lines[i]))
  }

  /** The lines of the parts from the first on, blank parts skipped. */
  function CombinedLines(parts: seq<Part>): seq<Line> {
    if |parts| == 0 then []
    else if !HasContent(parts[0]) then CombinedLines(parts[1..])
    else PartLines(parts[0]) + CombinedLines(parts[1..])
  }

  /** `renderDiff`: the message when the diff has no parts at all, the
      lines of the non-blank parts otherwise (possibly none). */
  function RenderDiff(parts: seq<Part>): (r: Combined)
    ensures r.NoDifferences? <==> |parts| == 0
    ensures r.Lines? ==> forall l :: l in r.lines ==> l.marker in {"R ", "L ", "  "}
  {
    if |parts| == 0 then NoDifferences
    else
      MarkersKnown(parts);
      Lines(CombinedLines(parts))
  }

  lemma {:induction false} MarkersKnown(parts: seq<Part>)
    ensures forall l :: l in CombinedLines(parts) ==> l.marker in {"R ", "L ", "  "}
  {
    if |parts| > 0 {
      MarkersKnown(parts[1..]);
    }
  }

  /** The combined view holds, part by part, exactly the non-blank parts'
      lines, each behind its part's marker. */
  lemma {:induction false} CombinedByPart(parts: seq<Part>)
    ensures CombinedLines(parts) == Flatten(Seqs.Filter(parts, HasContent))
  {
    if |parts| > 0 {
      CombinedByPart(parts[1..]);
      var f := Seqs.Filter(parts[1..], HasContent);
      assert HasContent(parts[0]) ==> ([parts[0]] + f)[1..] == f;
    }
  }

  function Flatten(parts: seq<Part>): seq<Line> {
    if |parts| == 0 then [] else PartLines(parts[0]) + Flatten(parts[1..])
  }

  /** A shown part's lines read back as its text, up to a final line break. */
  lemma PartLinesRebuild(p: Part)
    requires HasContent(p)
    ensures var texts := seq(|PartLines(p)|, i requires 0 <= i < |PartLines(p)| => PartLines(p)[i].text);
      Join(texts) + (if p.value[|p.value| - 1] == '\n' then "\n" else "") == p.value
  {
    assert p.value != "";
    var texts := seq(|PartLines(p)|, i requires 0 <= i < |PartLines(p)| => PartLines(p)[i].text);
    assert texts == ShownLines(p.value);
    ShownLinesRebuild(p.value);
  }
}
