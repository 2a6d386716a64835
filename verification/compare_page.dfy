/**
  The free comparison page: each side picks a document by typing an
  address, choosing a bill or choosing an amendment, and the comparison
  opens once both sides have an address.
 */
module ComparePage {
  import opened Wrappers
  import opened Amendments
  import Seqs
  import BillGroups

  datatype Source = Custom | BillSource | AmendmentSource

  /** One side's choice; the bill and LCO numbers are absent until chosen. */
  datatype Selection = Selection(source: Source, url: string, billNumber: Option<string>, lcoNumber: Option<string>)

  datatype Side = Left | Right

  datatype Page = Page(left: Selection, right: Selection, comparing: bool)

  /** Both sides start as an empty typed address, not comparing. */
  const Initial: Page := Page(Selection(Custom, "", None, None), Selection(Custom, "", None, None), false)

  function Get(p: Page, side: Side): Selection {
    if side == Left then p.left else p.right
  }

  function Set(p: Page, side: Side, s: Selection): (r: Page)
    ensures Get(r, side) == s
    ensures r.comparing == p.comparing
    ensures forall o :: o != side ==> Get(r, o) == Get(p, o)
  {
    if side == Left then p.(left := s) else p.(right := s)
  }

  /** Switching a side's source starts that side over with no address. */
  function SourceChange(p: Page, side: Side, source: Source): (r: Page)
    ensures Get(r, side) == Selection(source, "", None, None)
    ensures r.comparing == p.comparing
    ensures forall o :: o != side ==> Get(r, o) == Get(p, o)
  {
    Set(p, side, Selection(source, "", None, None))
  }

  function HasBillNumber(n: string): BillGroups.Bill -> bool {
    (b: BillGroups.Bill) => b.billNumber == n
  }

  function HasLcoNumber(n: string): Amendment -> bool {
    (a: Amendment) => a.lcoNumber == n
  }

  /** Index `i` holds the first element of `s` that `p` accepts. */
  predicate FirstMatch<T>(s: seq<T>, p: T -> bool, i: int) {
    0 <= i < |s| && p(s[i]) && forall j :: 0 <= j < i ==> !p(s[j])
  }

  /** The address a choice leads to: for a bill, the first bill with that
      number's link; for an amendment, the first amendment with that LCO
      number's link (senate list first); `""` when there is none; for a
      typed address, the text itself. */
  function Choose(s: Selection, value: string, bills: seq<BillGroups.Bill>, all: seq<Amendment>): (r: Selection)
    ensures r.source == s.source
    ensures s.source == Custom ==> r == s.(url := value)
    ensures s.source == BillSource ==>
      && r == s.(url := r.url, billNumber := Some(value))
      && (forall i :: FirstMatch(bills, HasBillNumber(value), i) ==> r.url == bills[i].billLink)
      && ((forall i :: 0 <= i < |bills| ==> bills[i].billNumber != value) ==> r.url == "")
    ensures s.source == AmendmentSource ==>
      && r == s.(url := r.url, lcoNumber := Some(value))
      && (forall i :: FirstMatch(all, HasLcoNumber(value), i) ==> r.url == all[i].lcoLink)
      && ((forall i :: 0 <= i < |all| ==> all[i].lcoNumber != value) ==> r.url == "")
  {
    match s.source
    case Custom => s.(url := value)
    case BillSource =>
      var url := match Seqs.FirstIndex(bills, HasBillNumber(value))
        case None => ""
        case Some(i) => bills[i].billLink;
      s.(url := url, billNumber := Some(value))
    case AmendmentSource =>
      var url := match Seqs.FirstIndex(all, HasLcoNumber(value))
        case None => ""
        case Some(i) => all[i].lcoLink;
      s.(url := url, lcoNumber := Some(value))
  }

  /** `handleSelectionChange`: the side's choice is updated, the other
      side is untouched; amendments are looked up in the senate list, then
      the house list. */
  function SelectionChange(p: Page, side: Side, value: string, bills: seq<BillGroups.Bill>, st: Store): (r: Page)
    ensures Get(r, side) == Choose(Get(p, side), value, bills, st.senate + st.house)
    ensures r.comparing == p.comparing
    ensures forall o :: o != side ==> Get(r, o) == Get(p, o)
  {
    Set(p, side, Choose(Get(p, side), value, bills, st.senate + st.house))
  }

  /** The comparison opens only when both sides have an address. */
  predicate CanCompare(p: Page) {
    p.left.url != "" && p.right.url != ""
  }

  function HandleCompare(p: Page): (r: Page)
    ensures r.left == p.left && r.right == p.right
    ensures r.comparing <==> p.comparing || CanCompare(p)
  {
    if CanCompare(p) then p.(comparing := true) else p
  }

  /** How an absent value prints inside a template string. */
  function Shown(v: Option<string>): string {
    match v
    case None => "undefined"
    case Some(s) => s
  }

  /** The heading handed to the comparison view for a side. */
  function Label(side: Side, s: Selection): (r: string)
    ensures s.source == Custom ==> r == (if side == Left then "First PDF" else "Second PDF")
    ensures s.source == BillSource ==> r == "Bill " + Shown(s.billNumber)
    ensures s.source == AmendmentSource ==> r == "Amendment " + Shown(s.lcoNumber)
  {
    match s.source
    case Custom => if side == Left then "First PDF" else "Second PDF"
    case BillSource => "Bill " + Shown(s.billNumber)
    case AmendmentSource => "Amendment " + Shown(s.lcoNumber)
  }

  /** A side with an address from a bill or an amendment knows which one. */
  predicate Consistent(s: Selection) {
    && (s.source == BillSource && s.url != "" ==> s.billNumber.Some?)
    && (s.source == AmendmentSource && s.url != "" ==> s.lcoNumber.Some?)
  }

  predicate PageConsistent(p: Page) {
    Consistent(p.left) && Consistent(p.right)
  }

  /** Every handler keeps both sides consistent. */
  lemma HandlersKeepConsistent(p: Page, side: Side, source: Source, value: string,
                               bills: seq<BillGroups.Bill>, st: Store)
    requires PageConsistent(p)
    ensures PageConsistent(Initial)
    ensures PageConsistent(SourceChange(p, side, source))
    ensures PageConsistent(SelectionChange(p, side, value, bills, st))
    ensures PageConsistent(HandleCompare(p))
  {
  }

  /** So once a comparison can open, no heading prints `undefined` for a
      missing bill or LCO number. */
  lemma ReadyLabelsKnown(p: Page, side: Side)
    requires PageConsistent(p) && CanCompare(p)
    ensures Get(p, side).source == BillSource ==> Label(side, Get(p, side)) == "Bill " + Get(p, side).billNumber.value
    ensures Get(p, side).source == AmendmentSource ==> Label(side, Get(p, side)) == "Amendment " + Get(p, side).lcoNumber.value
  {
  }
}
