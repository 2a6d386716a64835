/**
  The by-bill view: every bill with the amendments filed against it, the
  chambers they came from and the latest amendment date, searchable by
  bill number, filterable by chamber and sortable by bill number or date.
  Turning a date string into a time is a parameter (`time`).
 */
module BillGroups {
  import opened Text
  import opened Amendments
  import Seqs
  import SortState

  datatype Bill = Bill(billNumber: string, billLink: string)

  datatype Group = Group(
    bill: Bill,
    amendments: seq<Amendment>,
    count: nat,
    chambers: seq<Chamber>,
    latestDate: int)

  // ---------------------------------------------------------------------
  // Grouping
  // ---------------------------------------------------------------------

  /** A bill's list in the grouping, empty when the bill has no key. */
  function Lookup(m: map<string, seq<Amendment>>, b: string): seq<Amendment> {
    if b in m then m[b] else []
  }

  /** The `reduce` over all amendments: each one is appended to its bill's list. */
  function GroupsFrom(all: seq<Amendment>): map<string, seq<Amendment>>
    decreases |all|
  {
    if |all| == 0 then map[]
    else
      var m := GroupsFrom(all[..|all| - 1]);
      var a := all[|all| - 1];
      m[a.billNumber := Lookup(m, a.billNumber) + [a]]
  }

  /** The grouping holds, under each bill number, exactly that bill's
      amendments in list order. */
  lemma {:induction false} GroupsFromLookup(all: seq<Amendment>, b: string)
    ensures Lookup(GroupsFrom(all), b) == Seqs.Filter(all, OfBill(b))
  {
    if |all| > 0 {
      var init, a := all[..|all| - 1], all[|all| - 1];
      var m := GroupsFrom(init);
      assert GroupsFrom(all) == m[a.billNumber := Lookup(m, a.billNumber) + [a]];
      GroupsFromLookup(init, b);
      assert all == init + [a];
      Seqs.FilterConcat(init, [a], OfBill(b));
      FilterOne(a, OfBill(b));
      if a.billNumber == b {
        assert Lookup(GroupsFrom(all), b) == Lookup(m, b) + [a];
      } else {
        assert Lookup(GroupsFrom(all), b) == Lookup(m, b);
      }
    }
  }

  lemma FilterOne(a: Amendment, p: Amendment -> bool)
    ensures Seqs.Filter([a], p) == if p(a) then [a] else []
  {
    assert [a][1..] == [];
  }

  /** The grouping has a key only for bills that have an amendment. */
  lemma {:induction false} GroupsFromKeys(all: seq<Amendment>, b: string)
    ensures b in GroupsFrom(all) <==> exists a :: a in all && a.billNumber == b
  {
    GroupsFromKeyed(all, b);
    GroupsFromLookup(all, b);
    var f := Seqs.Filter(all, OfBill(b));
    if f != [] {
      assert f[0] in f;
    }
  }

  lemma {:induction false} GroupsFromKeyed(all: seq<Amendment>, b: string)
    ensures b in GroupsFrom(all) <==> Lookup(GroupsFrom(all), b) != []
  {
    if |all| > 0 {
      GroupsFromKeyed(all[..|all| - 1], b);
    }
  }

  /** The largest of a non-empty sequence of numbers (`Math.max`). */
  function MaxOf(s: seq<int>): (m: int)
    requires |s| > 0
    ensures m in s
    ensures forall x :: x in s ==> x <= m
  {
    if |s| == 1 then s[0]
    else
      var rest := MaxOf(s[1..]);
      assert forall x :: x in s ==> x == s[0] || x in s[1..];
      if s[0] >= rest then s[0] else rest
  }

  /** The latest amendment time, or time `0` for a bill without amendments. */
  function LatestDate(amendments: seq<Amendment>, time: string -> int): (d: int)
    ensures |amendments| == 0 ==> d == 0
    ensures |amendments| > 0 ==> exists a :: a in amendments && time(a.date) == d
    ensures forall a :: a in amendments ==> time(a.date) <= d
  {
    if |amendments| == 0 then 0
    else
      var times := seq(|amendments|, i requires 0 <= i < |amendments| => time(amendments[i].date));
      var d := MaxOf(times);
      assert forall i :: 0 <= i < |amendments| ==> times[i] == time(amendments[i].date);
      assert forall a :: a in amendments ==> time(a.date) in times;
      var k :| 0 <= k < |times| && times[k] == d;
      assert amendments[k] in amendments;
      d
  }

  /** `amendments.map(a => a.chamber)` */
  function ChamberList(amendments: seq<Amendment>): (r: seq<Chamber>)
    ensures |r| == |amendments| && forall i :: 0 <= i < |r| ==> r[i] == amendments[i].chamber
  {
    seq(|amendments|, i requires 0 <= i < |amendments| => amendments[i].chamber)
  }

  /** `[...new Set(chambers)]`: the distinct chambers, in the order of their
      first appearance. */
  function Chambers(amendments: seq<Amendment>): (r: seq<Chamber>)
    ensures Seqs.NoDuplicates(r)
    ensures forall c :: c in r <==> exists a :: a in amendments && a.chamber == c
    ensures Seqs.SubsequenceOf(r, ChamberList(amendments))
    ensures forall c :: c in r <==> c in ChamberList(amendments)
    ensures Seqs.InFirstOccurrenceOrder(r, ChamberList(amendments))
  {
    var cs := ChamberList(amendments);
    forall a | a in amendments ensures a.chamber in cs {
      var i :| 0 <= i < |amendments| && amendments[i] == a;
      assert cs[i] == a.chamber;
    }
    Seqs.Dedup(cs)
  }

  function MakeGroup(bill: Bill, m: map<string, seq<Amendment>>, time: string -> int): Group {
    var amendments := Lookup(m, bill.billNumber);
    Group(bill, amendments, |amendments|, Chambers(amendments), LatestDate(amendments, time))
  }

  /** One group per bill, in the bills' order, built from both chambers' lists. */
  function Groups(senate: seq<Amendment>, house: seq<Amendment>, bills: seq<Bill>, time: string -> int): (r: seq<Group>)
    ensures |r| == |bills|
    ensures forall i :: 0 <= i < |r| ==> r[i].bill == bills[i] && r[i].count == |r[i].amendments|
  {
    var m := GroupsFrom(senate + house);
    seq(|bills|, i requires 0 <= i < |bills| => MakeGroup(bills[i], m, time))
  }

  /** A bill's group holds what the shared store's lookup gives for that
      bill: its senate amendments, then its house amendments; its chambers
      and latest date are taken over exactly those. */
  lemma GroupIsBillLookup(st: Store, bills: seq<Bill>, time: string -> int, i: nat)
    requires i < |bills|
    ensures var g := Groups(st.senate, st.house, bills, time)[i];
      && g.amendments == ByBill(st, bills[i].billNumber)
      && (forall c :: c in g.chambers <==> exists a :: a in g.amendments && a.chamber == c)
      && (forall a :: a in g.amendments ==> time(a.date) <= g.latestDate)
      && (g.amendments == [] ==> g.latestDate == 0)
  {
    var b := bills[i].billNumber;
    GroupsFromLookup(st.senate + st.house, b);
    Seqs.FilterConcat(st.senate, st.house, OfBill(b));
  }

  // ---------------------------------------------------------------------
  // Search and chamber filter
  // ---------------------------------------------------------------------

  predicate BillMatches(g: Group, term: string) {
    Contains(Lower(g.bill.billNumber), Lower(term))
  }

  function Matcher(term: string): Group -> bool {
    (g: Group) => BillMatches(g, term)
  }

  /** A non-empty term keeps the groups whose bill number contains it,
      ignoring case; the empty term keeps every group. */
  function SearchGroups(groups: seq<Group>, term: string): (r: seq<Group>)
    ensures term == "" ==> r == groups
    ensures term != "" ==> forall g :: g in r <==> g in groups && BillMatches(g, term)
    ensures Seqs.SubsequenceOf(r, groups)
  {
    if term == "" then
      Seqs.FilterAll(groups, (g: Group) => true);
      groups
    else Seqs.Filter(groups, Matcher(term))
  }

  datatype ChamberFilter = AllChambers | SenateOnly | HouseOnly | BothChambers

  predicate Keeps(f: ChamberFilter, g: Group) {
    match f
    case AllChambers => true
    case SenateOnly => Senate in g.chambers
    case HouseOnly => House in g.chambers
    case BothChambers => Senate in g.chambers && House in g.chambers
  }

  function Keeper(f: ChamberFilter): Group -> bool {
    (g: Group) => Keeps(f, g)
  }

  /** The chamber filter: all groups, or those with an amendment from the
      chosen chamber, or from both. */
  function ByChamber(groups: seq<Group>, f: ChamberFilter): (r: seq<Group>)
    ensures f == AllChambers ==> r == groups
    ensures forall g :: g in r <==> g in groups && Keeps(f, g)
    ensures Seqs.SubsequenceOf(r, groups)
  {
    if f == AllChambers then
      Seqs.FilterAll(groups, Keeper(f));
      groups
    else Seqs.Filter(groups, Keeper(f))
  }

  // ---------------------------------------------------------------------
  // Sorting
  // ---------------------------------------------------------------------

  datatype SortField = ByNumber | ByDate

  /** The view opens sorted by latest date, newest first. */
  const InitialSort: SortState.Sort<SortField> := SortState.Sort(ByDate, false)

  /** `localeCompare`, taken as code-point order. */
  function LocaleCompare(x: string, y: string): (c: int)
    ensures c == 0 <==> x == y
    ensures c < 0 <==> Less(x, y)
    ensures c > 0 <==> Less(y, x)
  {
    if x == y then
      LessIrreflexive(x);
      0
    else
      LessStrict(x, y);
      if Less(x, y) then -1 else 1
  }

  /** The view's comparator: bill numbers by `localeCompare`, dates by
      difference, reversed when descending. */
  function Compare(sort: SortState.Sort<SortField>, a: Group, b: Group): int {
    match sort.field
    case ByNumber =>
      if sort.ascending then LocaleCompare(a.bill.billNumber, b.bill.billNumber)
      else LocaleCompare(b.bill.billNumber, a.bill.billNumber)
    case ByDate =>
      if sort.ascending then a.latestDate - b.latestDate else b.latestDate - a.latestDate
  }

  function Leq(sort: SortState.Sort<SortField>): (Group, Group) -> bool {
    (a: Group, b: Group) => Compare(sort, a, b) <= 0
  }

  /** What the comparator means: ascending bill numbers in string order,
      or dates oldest first, and the reverse when descending. */
  lemma LeqMeaning(sort: SortState.Sort<SortField>, a: Group, b: Group)
    ensures sort.field == ByNumber && sort.ascending ==>
      (Leq(sort)(a, b) <==> !Less(b.bill.billNumber, a.bill.billNumber))
    ensures sort.field == ByNumber && !sort.ascending ==>
      (Leq(sort)(a, b) <==> !Less(a.bill.billNumber, b.bill.billNumber))
    ensures sort.field == ByDate && sort.ascending ==> (Leq(sort)(a, b) <==> a.latestDate <= b.latestDate)
    ensures sort.field == ByDate && !sort.ascending ==> (Leq(sort)(a, b) <==> b.latestDate <= a.latestDate)
  {
  }

  lemma LeqIsTotalPreorder(sort: SortState.Sort<SortField>)
    ensures Seqs.TotalPreorder(Leq(sort))
  {
    forall a, b ensures Leq(sort)(a, b) || Leq(sort)(b, a) {
      LessTrichotomy(a.bill.billNumber, b.bill.billNumber);
    }
    forall a, b, c | Leq(sort)(a, b) && Leq(sort)(b, c) ensures Leq(sort)(a, c) {
      var x, y, z := a.bill.billNumber, b.bill.billNumber, c.bill.billNumber;
      if sort.field == ByNumber {
        if sort.ascending {
          if x != y && y != z {
            LessTransitive(x, y, z);
          }
        } else {
          if x != y && y != z {
            LessTransitive(z, y, x);
          }
        }
      }
    }
  }

  /** Two groups tie under the view's order exactly when they have the same
      bill number (number column) or the same latest date (date column). */
  lemma TiesMeaning(sort: SortState.Sort<SortField>, a: Group, b: Group)
    ensures Seqs.Ties(Leq(sort), a)(b) <==>
      if sort.field == ByNumber then a.bill.billNumber == b.bill.billNumber else a.latestDate == b.latestDate
  {
    LeqMeaning(sort, a, b);
    LeqMeaning(sort, b, a);
    LessTrichotomy(a.bill.billNumber, b.bill.billNumber);
    LessIrreflexive(a.bill.billNumber);
  }

  /** The groups shown: searched, filtered by chamber, then sorted; groups
      the order cannot tell apart (the same date, say) keep the order they
      had before the sort. */
  function Visible(groups: seq<Group>, term: string, f: ChamberFilter, sort: SortState.Sort<SortField>): (r: seq<Group>)
    ensures multiset(r) == multiset(ByChamber(SearchGroups(groups, term), f))
    ensures Seqs.SortedBy(r, Leq(sort))
    ensures forall g :: g in r <==> g in groups && (term == "" || BillMatches(g, term)) && Keeps(f, g)
    ensures forall z :: Seqs.Filter(r, Seqs.Ties(Leq(sort), z)) == Seqs.Filter(ByChamber(SearchGroups(groups, term), f), Seqs.Ties(Leq(sort), z))
  {
    LeqIsTotalPreorder(sort);
    var r := Seqs.SortBy(ByChamber(SearchGroups(groups, term), f), Leq(sort));
    assert forall g :: g in r <==> g in multiset(r);
    r
  }

  /** One render of the view: the groups shown, and the memoised group
      array as the render leaves it. A search or a chamber filter sorts a
      copy; with neither, the memoised array itself is sorted in place, so
      the next render starts from this order. */
  function Render(memo: seq<Group>, term: string, f: ChamberFilter, sort: SortState.Sort<SortField>): (r: (seq<Group>, seq<Group>))
    ensures r.0 == Visible(memo, term, f, sort)
    ensures multiset(r.1) == multiset(memo)
    ensures term == "" && f == AllChambers ==> r.1 == r.0
    ensures term != "" || f != AllChambers ==> r.1 == memo
  {
    var shown := Visible(memo, term, f, sort);
    (shown, if term == "" && f == AllChambers then shown else memo)
  }

  /** An unfiltered render in which all groups tie under the order shows
      them in the memoised array's current order. */
  lemma AllTiedKeepOrder(memo: seq<Group>, sort: SortState.Sort<SortField>)
    requires forall i, j :: 0 <= i < |memo| && 0 <= j < |memo| ==> Seqs.Ties(Leq(sort), memo[i])(memo[j])
    ensures Render(memo, "", AllChambers, sort).0 == memo
  {
    var r := Visible(memo, "", AllChambers, sort);
    assert ByChamber(SearchGroups(memo, ""), AllChambers) == memo;
    if |memo| == 0 {
      assert |r| == |multiset(r)| == 0;
    } else {
      Seqs.FilterAllSame(r, memo, Seqs.Ties(Leq(sort), memo[0]));
    }
  }

  /** Sorting by bill number and then by date, when every bill has the same
      latest date (all without amendments, say), still shows bill-number
      order: the date sort starts from what the number sort left. */
  lemma NumberThenDate(memo: seq<Group>, up: bool, down: bool)
    requires forall i, j :: 0 <= i < |memo| && 0 <= j < |memo| ==> memo[i].latestDate == memo[j].latestDate
    ensures var byNumber := Render(memo, "", AllChambers, SortState.Sort(ByNumber, up));
      Render(byNumber.1, "", AllChambers, SortState.Sort(ByDate, down)).0 == byNumber.0
  {
    var byNumber := Render(memo, "", AllChambers, SortState.Sort(ByNumber, up)).1;
    var byDate := SortState.Sort(ByDate, down);
    forall i, j | 0 <= i < |byNumber| && 0 <= j < |byNumber| ensures Seqs.Ties(Leq(byDate), byNumber[i])(byNumber[j]) {
      assert byNumber[i] in multiset(memo) && byNumber[j] in multiset(memo);
      var a :| 0 <= a < |memo| && memo[a] == byNumber[i];
      var b :| 0 <= b < |memo| && memo[b] == byNumber[j];
      TiesMeaning(byDate, byNumber[i], byNumber[j]);
    }
    AllTiedKeepOrder(byNumber, byDate);
  }
}
