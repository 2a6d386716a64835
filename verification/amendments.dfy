/**
  The shared amendment store: the two chamber lists fetched after sign-in,
  how a response is checked and tagged with its chamber, and the lookup
  of one bill's amendments.
 */
module Amendments {
  import opened Wrappers
  import Seqs

  datatype Chamber = Senate | House

  datatype Amendment = Amendment(
    billNumber: string,
    date: string,
    lcoLink: string,
    billLink: string,
    lcoNumber: string,
    calNumber: string,
    chamber: Chamber)

  /** A response body is either a list of amendments or something else. */
  datatype Body = Items(items: seq<Amendment>) | NotAList

  datatype Response = Response(status: nat, body: Body)

  /** Both requests answered with these responses, or one of them threw
      before answering (the pair is awaited together, so either failure
      loses both). */
  datatype Fetch = Answered(senate: Response, house: Response) | Threw

  /** The session status the store reacts to. */
  datatype SessionStatus = Authenticated | Unauthenticated | Pending

  datatype Store = Store(
    senate: seq<Amendment>,
    house: seq<Amendment>,
    loading: bool,
    error: Option<string>)

  const FetchFailed: string := "Failed to fetch amendments"

  /** Every amendment records `c` as its chamber. */
  predicate AllIn(items: seq<Amendment>, c: Chamber) {
    forall i :: 0 <= i < |items| ==> items[i].chamber == c
  }

  /** The items with their chamber set to `c`, everything else kept. */
  function Tag(items: seq<Amendment>, c: Chamber): (r: seq<Amendment>)
    ensures |r| == |items|
    ensures AllIn(r, c)
    ensures forall i :: 0 <= i < |r| ==> r[i].(chamber := items[i].chamber) == items[i]
  {
    seq(|items|, i requires 0 <= i < |items| => items[i].(chamber := c))
  }

  /** A chamber's list from its response: empty for a 401 or a body that
      is not a list, the tagged items otherwise. */
  function Accept(resp: Response, c: Chamber): (r: seq<Amendment>)
    ensures AllIn(r, c)
    ensures resp.status == 401 || resp.body.NotAList? ==> r == []
    ensures resp.status != 401 && resp.body.Items? ==>
      |r| == |resp.body.items|
      && forall i :: 0 <= i < |r| ==> r[i].(chamber := resp.body.items[i].chamber) == resp.body.items[i]
  {
    if resp.status == 401 || !resp.body.Items? then [] else Tag(resp.body.items, c)
  }

  /** The HTTP client resolves a request only for a 2xx status and rejects
      every other one (its default status check, which the store keeps). */
  predicate Resolves(resp: Response) {
    200 <= resp.status < 300
  }

  /** Whether both requests of a fetch resolve, given which statuses resolve. */
  predicate BothResolve(fetch: Fetch, resolves: Response -> bool) {
    fetch.Answered? && resolves(fetch.senate) && resolves(fetch.house)
  }

  /** The fetch as the store runs it, for a client that resolves the
      responses `resolves` accepts: a rejected request keeps both lists and
      sets the error; otherwise each chamber's list comes from its own
      response. */
  function FetchWith(st: Store, status: SessionStatus, fetch: Fetch, resolves: Response -> bool): (r: Store)
    ensures !r.loading
    ensures status != Authenticated ==> r == st.(loading := false)
    ensures status == Authenticated && !BothResolve(fetch, resolves) ==>
      r == st.(loading := false, error := Some(FetchFailed))
    ensures status == Authenticated && BothResolve(fetch, resolves) ==>
      && r.error.None?
      && r.senate == Accept(fetch.senate, Senate) && r.house == Accept(fetch.house, House)
      && AllIn(r.senate, Senate) && AllIn(r.house, House)
  {
    if status != Authenticated then st.(loading := false)
    else
      var cleared := st.(loading := true, error := None);
      if BothResolve(fetch, resolves) then
        cleared.(senate := Accept(fetch.senate, Senate), house := Accept(fetch.house, House), loading := false)
      else cleared.(error := Some(FetchFailed), loading := false)
  }

  /** `fetchAmendments` as the program behaves: nothing happens but
      clearing `loading` unless the session is authenticated; a thrown
      request or any status outside 2xx keeps both lists and sets the
      error; otherwise each chamber's list comes from its own response. */
  function FetchAmendments(st: Store, status: SessionStatus, fetch: Fetch): (r: Store)
    ensures !r.loading
    ensures status != Authenticated ==> r == st.(loading := false)
    ensures status == Authenticated && (fetch.Threw? || !Resolves(fetch.senate) || !Resolves(fetch.house)) ==>
      r.senate == st.senate && r.house == st.house && r.error == Some(FetchFailed)
    ensures status == Authenticated && fetch.Answered? && Resolves(fetch.senate) && Resolves(fetch.house) ==>
      r.error.None? && r.senate == Accept(fetch.senate, Senate) && r.house == Accept(fetch.house, House)
    ensures status == Authenticated && fetch.Answered? && Resolves(fetch.senate) && Resolves(fetch.house) ==>
      AllIn(r.senate, Senate) && AllIn(r.house, House)
  {
    FetchWith(st, status, fetch, Resolves)
  }

  /** The 401 checks never fire: a 401 from either chamber is a rejected
      request, so instead of an empty list for that chamber the store keeps
      both old lists and shows the fetch error. */
  lemma UnauthorizedCheckUnreachable(st: Store, s: Response, h: Response)
    requires s.status == 401 || h.status == 401
    ensures var r := FetchAmendments(st, Authenticated, Answered(s, h));
      r.senate == st.senate && r.house == st.house && r.error == Some(FetchFailed)
      && (st.senate != [] && s.status == 401 ==> r.senate != Accept(s, Senate))
  {
  }

  /** A status the 401 checks are written for: 2xx, or 401 itself. */
  predicate ResolvesOr401(resp: Response) {
    Resolves(resp) || resp.status == 401
  }

  /** The fetch the 401 checks are written for, with the client letting a
      401 through: a 401 from one chamber empties that chamber's list and
      loads the other without an error. */
  function FetchAmendmentsIntended(st: Store, status: SessionStatus, fetch: Fetch): (r: Store)
    ensures status == Authenticated && fetch.Answered? && fetch.senate.status == 401 && ResolvesOr401(fetch.house) ==>
      r.senate == [] && r.house == Accept(fetch.house, House) && r.error.None?
    ensures status == Authenticated && fetch.Answered? && fetch.house.status == 401 && ResolvesOr401(fetch.senate) ==>
      r.house == [] && r.senate == Accept(fetch.senate, Senate) && r.error.None?
    ensures status == Authenticated && (fetch.Threw? || !ResolvesOr401(fetch.senate) || !ResolvesOr401(fetch.house)) ==>
      r.senate == st.senate && r.house == st.house && r.error == Some(FetchFailed)
  {
    FetchWith(st, status, fetch, ResolvesOr401)
  }

  /** The two agree on every fetch without a 401. */
  lemma IntendedAgreesWithout401(st: Store, status: SessionStatus, fetch: Fetch)
    requires fetch.Answered? ==> fetch.senate.status != 401 && fetch.house.status != 401
    ensures FetchAmendmentsIntended(st, status, fetch) == FetchAmendments(st, status, fetch)
  {
    assert BothResolve(fetch, ResolvesOr401) == BothResolve(fetch, Resolves);
  }

  /** The effect run when the session status changes: fetch when
      authenticated, clear both lists when unauthenticated, wait otherwise.
      A 401 from either chamber therefore keeps both lists and sets the
      error, as the fetch does. */
  function OnSessionChange(st: Store, status: SessionStatus, fetch: Fetch): (r: Store)
    ensures status == Unauthenticated ==> r.senate == [] && r.house == [] && !r.loading
    ensures status == Pending ==> r == st
    ensures status == Authenticated ==> r == FetchAmendments(st, status, fetch)
    ensures status == Authenticated && fetch.Answered? && (fetch.senate.status == 401 || fetch.house.status == 401) ==>
      r.senate == st.senate && r.house == st.house && r.error == Some(FetchFailed)
  {
    match status
    case Authenticated => FetchAmendments(st, status, fetch)
    case Unauthenticated => st.(senate := [], house := [], loading := false)
    case Pending => st
  }

  /** Whether an amendment belongs to bill `b`. */
  function OfBill(b: string): Amendment -> bool {
    (a: Amendment) => a.billNumber == b
  }

  /** `getAmendmentsByBill`: the senate matches, then the house matches,
      each in list order. */
  function ByBill(st: Store, b: string): (r: seq<Amendment>)
    ensures forall i :: 0 <= i < |r| ==> r[i].billNumber == b
    ensures forall x :: x in r <==> (x in st.senate || x in st.house) && x.billNumber == b
  {
    Seqs.Filter(st.senate, OfBill(b)) + Seqs.Filter(st.house, OfBill(b))
  }

  /** A bill's lookup is the bill's senate amendments in order, followed
      by its house amendments in order, and nothing else. */
  lemma ByBillSplits(st: Store, b: string)
    ensures var r := ByBill(st, b);
      var k := Seqs.CountWhere(st.senate, OfBill(b));
      && k <= |r|
      && |r| - k == Seqs.CountWhere(st.house, OfBill(b))
      && Seqs.SubsequenceOf(r[..k], st.senate)
      && Seqs.SubsequenceOf(r[k..], st.house)
  {
    var s := Seqs.Filter(st.senate, OfBill(b));
    var h := Seqs.Filter(st.house, OfBill(b));
    Seqs.FilterLength(st.senate, OfBill(b));
    Seqs.FilterLength(st.house, OfBill(b));
    assert (s + h)[..|s|] == s && (s + h)[|s|..] == h;
  }

  /** When the lists carry their own chambers, senate amendments come
      before house amendments in a bill's lookup. */
  lemma SenateFirst(st: Store, b: string)
    requires AllIn(st.senate, Senate) && AllIn(st.house, House)
    ensures var r := ByBill(st, b);
      forall i, j :: 0 <= i < j < |r| && r[j].chamber == Senate ==> r[i].chamber == Senate
  {
    var r := ByBill(st, b);
    var s := Seqs.Filter(st.senate, OfBill(b));
    var h := Seqs.Filter(st.house, OfBill(b));
    assert r == s + h;
    forall k | 0 <= k < |r| ensures (r[k].chamber == Senate) == (k < |s|) {
      if k < |s| {
        assert r[k] == s[k] && s[k] in st.senate;
      } else {
        assert r[k] == h[k - |s|] && h[k - |s|] in st.house;
      }
    }
  }
}
