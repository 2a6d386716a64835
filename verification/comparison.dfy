/**
  The comparison view's data handling around the diff: which address each
  side fetches, how the two settled fetches become texts and error
  messages, when the diff is recomputed, and the heading of each side.
  Fetching is a parameter: `fetch` gives the outcome of requesting the
  text of an address.
 */
module Comparison {
  import opened Text
  import opened Wrappers
  import opened Amendments
  import DiffView

  // ---------------------------------------------------------------------
  // Addresses
  // ---------------------------------------------------------------------

  /** The address a side fetches: the explicit address when it is not
      empty, otherwise the amendment's LCO link; `""` stands for none. */
  function SideUrl(explicit: string, amendment: Option<Amendment>): (r: string)
    ensures explicit != "" ==> r == explicit
    ensures explicit == "" ==> r == (if amendment.Some? then amendment.value.lcoLink else "")
  {
    if explicit != "" then explicit
    else match amendment
      case None => ""
      case Some(a) => a.lcoLink
  }

  // ---------------------------------------------------------------------
  // Settling the two fetches
  // ---------------------------------------------------------------------

  /** Why a fetch failed: an HTTP client error (with the response status
      when there was a response) or anything else. */
  datatype Reason = HttpError(status: Option<nat>, message: string) | OtherFailure

  datatype Outcome = Fulfilled(text: string) | Rejected(reason: Reason)

  /** The view's state: both texts, the per-side errors, the general error
      and whether it is still loading. */
  datatype View = View(
    leftText: string,
    rightText: string,
    leftError: Option<string>,
    rightError: Option<string>,
    error: Option<string>,
    loading: bool)

  const BothFailed: string := "Failed to extract text from both PDFs. View the original documents instead."

  /** A missing or zero status is shown as `unknown`, any other as its
      decimal digits without leading zeros. */
  function StatusText(status: Option<nat>): (r: string)
    ensures r != ""
    ensures status.None? || status.value == 0 <==> r == "unknown"
    ensures status.Some? && status.value != 0 ==> AllDigits(r) && r[0] != '0' && DigitsValue(r) == status.value
  {
    match status
    case None => "unknown"
    case Some(n) => if n == 0 then "unknown" else NatToString(n)
  }

  /** The message for a failed side (`side` is `left` or `right`); an HTTP
      client error adds its status and message. */
  function FailureMessage(side: string, reason: Reason): (r: string)
    ensures StartsWith(r, "Failed to extract text from " + side + " PDF. View the original PDF instead.")
    ensures reason.OtherFailure? ==> |r| == |"Failed to extract text from " + side + " PDF. View the original PDF instead."|
  {
    var base := "Failed to extract text from " + side + " PDF. View the original PDF instead.";
    match reason
    case OtherFailure => base
    case HttpError(status, message) =>
      base + " (Status: " + StatusText(status) + ", Message: " + message + ")"
  }

  /** What `Promise.allSettled` delivers, applied to the view: a fulfilled
      side replaces its text, a rejected side keeps its old text and gets
      its error, and the general error appears only when both failed. */
  function Settle(v: View, left: Outcome, right: Outcome): (r: View)
    ensures !r.loading
    ensures r.leftText == (if left.Fulfilled? then left.text else v.leftText)
    ensures r.rightText == (if right.Fulfilled? then right.text else v.rightText)
    ensures r.leftError.Some? <==> left.Rejected?
    ensures r.rightError.Some? <==> right.Rejected?
    ensures r.error.Some? <==> left.Rejected? && right.Rejected?
  {
    var leftText := if left.Fulfilled? then left.text else v.leftText;
    var rightText := if right.Fulfilled? then right.text else v.rightText;
    var leftError := if left.Rejected? then Some(FailureMessage("left", left.reason)) else None;
    var rightError := if right.Rejected? then Some(FailureMessage("right", right.reason)) else None;
    var error := if left.Rejected? && right.Rejected? then Some(BothFailed) else None;
    View(leftText, rightText, leftError, rightError, error, false)
  }

  /** One side's request: a side without an address resolves at once to
      an empty text. */
  function Request(url: string, fetch: string -> Outcome): (o: Outcome)
    ensures url == "" ==> o == Fulfilled("")
  {
    if url == "" then Fulfilled("") else fetch(url)
  }

  /** The fetch effect: errors are cleared; with no address on either side
      nothing is fetched; otherwise both requests settle into the view. */
  function Load(v: View, leftUrl: string, rightUrl: string, fetch: string -> Outcome): (r: View)
    ensures !r.loading
    ensures leftUrl == "" && rightUrl == "" ==>
      r.leftText == v.leftText && r.rightText == v.rightText
      && r.leftError.None? && r.rightError.None? && r.error.None?
    ensures leftUrl == "" && rightUrl != "" ==> r.leftText == "" && r.leftError.None? && r.error.None?
    ensures rightUrl == "" && leftUrl != "" ==> r.rightText == "" && r.rightError.None? && r.error.None?
  {
    var cleared := v.(loading := true, error := None, leftError := None, rightError := None);
    if leftUrl == "" && rightUrl == "" then cleared.(loading := false)
    else Settle(cleared, Request(leftUrl, fetch), Request(rightUrl, fetch))
  }

  // ---------------------------------------------------------------------
  // The diff gate
  // ---------------------------------------------------------------------

  /** The diff is recomputed only when both texts are non-empty; otherwise
      the previous diff stays. */
  function DiffGate(prev: seq<DiffView.Part>, leftText: string, rightText: string,
                    diff: (string, string) -> seq<DiffView.Part>): (r: seq<DiffView.Part>)
    ensures leftText == "" || rightText == "" ==> r == prev
  {
    if leftText != "" && rightText != "" then diff(leftText, rightText) else prev
  }

  /** With both texts present and a diff that splits them faithfully, the
      two panes read back as the two texts. */
  lemma GatedPanesShowTexts(prev: seq<DiffView.Part>, leftText: string, rightText: string,
                            diff: (string, string) -> seq<DiffView.Part>)
    requires leftText != "" && rightText != ""
    requires DiffView.LeftText(diff(leftText, rightText)) == leftText
    requires DiffView.RightText(diff(leftText, rightText)) == rightText
    ensures var parts := DiffGate(prev, leftText, rightText, diff);
      && DiffView.PaneText(DiffView.LeftPane(parts)) == leftText
      && DiffView.PaneText(DiffView.RightPane(parts)) == rightText
  {
    var parts := DiffGate(prev, leftText, rightText, diff);
    DiffView.LeftPaneShowsLeftText(parts);
    DiffView.RightPaneShowsRightText(parts);
  }

  // ---------------------------------------------------------------------
  // Headings
  // ---------------------------------------------------------------------

  const NoAmendment: string := "No amendment selected"

  function ChamberName(c: Chamber): string {
    match c
    case Senate => "Senate"
    case House => "House"
  }

  /** `getDisplayLabel`: an explicit label wins; without an amendment the
      placeholder; otherwise the chamber and LCO number. */
  function DisplayLabel(given: string, amendment: Option<Amendment>): (r: string)
    ensures r != ""
    ensures given != "" ==> r == given
    ensures given == "" && amendment.None? ==> r == NoAmendment
    ensures given == "" && amendment.Some? ==>
      (var tail := " - LCO " + amendment.value.lcoNumber;
       |r| == |ChamberName(amendment.value.chamber)| + |tail|
       && r[|r| - |tail|..] == tail
       && StartsWith(r, ChamberName(amendment.value.chamber)))
  {
    if given != "" then given
    else match amendment
      case None => NoAmendment
      case Some(a) =>
        var name := ChamberName(a.chamber);
        var r := name + " - LCO " + a.lcoNumber;
        assert r[..|name|] == name;
        r
  }
}
