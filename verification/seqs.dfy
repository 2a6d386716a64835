/**
  The array operations the views rely on — `filter`, `find`, `new Set`,
  a stable `sort` — as functions on sequences, each with the facts its
  callers need.
 */
module Seqs {
  import opened Wrappers

  // ---------------------------------------------------------------------
  // Subsequences
  // ---------------------------------------------------------------------

  /** `a` can be obtained from `b` by deleting elements (order kept). */
  predicate SubsequenceOf<T(==)>(a: seq<T>, b: seq<T>)
    decreases |b|
  {
    if |a| == 0 then true
    else if |b| == 0 then false
    else if a[0] == b[0] then SubsequenceOf(a[1..], b[1..])
    else SubsequenceOf(a, b[1..])
  }

  lemma {:induction false} SubsequenceCons<T>(a: seq<T>, x: T, b: seq<T>)
    requires SubsequenceOf(a, b)
    ensures SubsequenceOf(a, [x] + b)
    decreases |b|, 1
  {
    if |a| > 0 && a[0] == x {
      SubsequenceTail(a, b);
      assert ([x] + b)[1..] == b;
    } else if |a| > 0 {
      assert ([x] + b)[1..] == b;
    }
  }

  lemma {:induction false} SubsequenceTail<T>(a: seq<T>, b: seq<T>)
    requires |a| > 0 && SubsequenceOf(a, b)
    ensures SubsequenceOf(a[1..], b)
    decreases |b|, 0
  {
    if a[0] == b[0] {
      SubsequenceCons(a[1..], b[0], b[1..]);
      assert [b[0]] + b[1..] == b;
    } else {
      SubsequenceTail(a, b[1..]);
      SubsequenceCons(a[1..], b[0], b[1..]);
      assert [b[0]] + b[1..] == b;
    }
  }

  // ---------------------------------------------------------------------
  // filter
  // ---------------------------------------------------------------------

  /** `s.filter(p)` */
  function Filter<T(==,!new)>(s: seq<T>, p: T -> bool): (r: seq<T>)
    ensures |r| <= |s|
    ensures forall i :: 0 <= i < |r| ==> p(r[i])
    ensures forall x :: x in r <==> x in s && p(x)
    ensures SubsequenceOf(r, s)
  {
    if |s| == 0 then []
    else
      var rest := Filter(s[1..], p);
      if p(s[0]) then
        assert ([s[0]] + rest)[1..] == rest;
        [s[0]] + rest
      else
        SubsequenceCons(rest, s[0], s[1..]);
        assert [s[0]] + s[1..] == s;
        rest
  }

  /** Filtering with a predicate every element satisfies changes nothing. */
  lemma {:induction false} FilterAll<T(!new)>(s: seq<T>, p: T -> bool)
    requires forall i :: 0 <= i < |s| ==> p(s[i])
    ensures Filter(s, p) == s
  {
    if |s| > 0 {
      FilterAll(s[1..], p);
    }
  }

  /** Filtering distributes over concatenation. */
  lemma {:induction false} FilterConcat<T(!new)>(a: seq<T>, b: seq<T>, p: T -> bool)
    ensures Filter(a + b, p) == Filter(a, p) + Filter(b, p)
  {
    if |a| > 0 {
      var ab := a + b;
      assert ab[0] == a[0] && ab[1..] == a[1..] + b;
      FilterConcat(a[1..], b, p);
      var head := if p(a[0]) then [a[0]] else [];
      assert Filter(ab, p) == head + Filter(ab[1..], p);
      assert Filter(a, p) == head + Filter(a[1..], p);
    } else {
      assert a + b == b;
    }
  }

  /** Number of elements of `s` that satisfy `p`. */
  function CountWhere<T>(s: seq<T>, p: T -> bool): nat {
    if |s| == 0 then 0 else (if p(s[0]) then 1 else 0) + CountWhere(s[1..], p)
  }

  lemma {:induction false} FilterLength<T(!new)>(s: seq<T>, p: T -> bool)
    ensures |Filter(s, p)| == CountWhere(s, p)
  {
    if |s| > 0 {
      FilterLength(s[1..], p);
    }
  }

  // ---------------------------------------------------------------------
  // Optional results
  // ---------------------------------------------------------------------

  /** The values of the `Some` entries, in order. */
  function Somes<T(!new)>(s: seq<Option<T>>): (r: seq<T>)
    ensures |r| <= |s|
    ensures forall x :: x in r <==> Some(x) in s
  {
    if |s| == 0 then []
    else
      var rest := Somes(s[1..]);
      assert forall x :: Some(x) in s <==> Some(x) == s[0] || Some(x) in s[1..];
      if s[0].Some? then [s[0].value] + rest else rest
  }

  // ---------------------------------------------------------------------
  // find
  // ---------------------------------------------------------------------

  /** The index of the first element `p` accepts (what `s.find(p)` returns), as an option. */
  function FirstIndex<T>(s: seq<T>, p: T -> bool): (r: Option<nat>)
    ensures r.Some? ==> r.value < |s| && p(s[r.value])
    ensures r.Some? ==> forall j :: 0 <= j < r.value ==> !p(s[j])
    ensures r.None? ==> forall j :: 0 <= j < |s| ==> !p(s[j])
  {
    if |s| == 0 then None
    else if p(s[0]) then Some(0)
    else match FirstIndex(s[1..], p)
      case None => None
      case Some(i) => Some(i + 1)
  }

  // ---------------------------------------------------------------------
  // [...new Set(s)]
  // ---------------------------------------------------------------------

  predicate NoDuplicates<T(==)>(s: seq<T>) {
    forall i, j :: 0 <= i < j < |s| ==> s[i] != s[j]
  }

  /** The index of the first occurrence of `x` in `s`. */
  function IndexOf<T(==)>(s: seq<T>, x: T): (i: nat)
    requires x in s
    ensures i < |s| && s[i] == x
    ensures forall k :: 0 <= k < i ==> s[k] != x
  {
    if s[0] == x then 0 else 1 + IndexOf(s[1..], x)
  }

  /** The elements of `r` first occur in `s` in the order they have in `r`. */
  predicate InFirstOccurrenceOrder<T(==)>(r: seq<T>, s: seq<T>)
    requires forall i :: 0 <= i < |r| ==> r[i] in s
  {
    forall i :: 0 <= i < |r| - 1 ==> IndexOf(s, r[i]) < IndexOf(s, r[i + 1])
  }

  function DedupInto<T(==,!new)>(acc: seq<T>, s: seq<T>): (r: seq<T>)
    requires NoDuplicates(acc)
    ensures NoDuplicates(r)
    ensures forall x :: x in r <==> x in acc || x in s
    ensures |acc| <= |r| && r[..|acc|] == acc
    ensures SubsequenceOf(r[|acc|..], s)
    ensures forall i :: |acc| <= i < |r| ==> r[i] in s && r[i] !in acc
    decreases |s|
  {
    if |s| == 0 then acc
    else if s[0] in acc then
      var r := DedupInto(acc, s[1..]);
      SubsequenceCons(r[|acc|..], s[0], s[1..]);
      assert [s[0]] + s[1..] == s;
      r
    else
      var r := DedupInto(acc + [s[0]], s[1..]);
      assert r[|acc|] == (acc + [s[0]])[|acc|];
      assert r[|acc|..][1..] == r[|acc| + 1..];
      r
  }

  /** Dropping the first element of `s` moves every other element's first
      occurrence one place down. */
  lemma OrderTail<T>(n: seq<T>, s: seq<T>)
    requires |s| > 0
    requires forall i :: 0 <= i < |n| ==> n[i] in s[1..] && n[i] != s[0]
    requires InFirstOccurrenceOrder(n, s[1..])
    ensures InFirstOccurrenceOrder(n, s)
  {
    forall i | 0 <= i < |n| - 1 ensures IndexOf(s, n[i]) < IndexOf(s, n[i + 1]) {
      assert IndexOf(s, n[i]) == 1 + IndexOf(s[1..], n[i]);
      assert IndexOf(s, n[i + 1]) == 1 + IndexOf(s[1..], n[i + 1]);
    }
  }

  /** The elements `DedupInto` adds first occur in `s` in the order it adds them. */
  lemma {:induction false} DedupIntoOrder<T(!new)>(acc: seq<T>, s: seq<T>)
    requires NoDuplicates(acc)
    ensures InFirstOccurrenceOrder(DedupInto(acc, s)[|acc|..], s)
    decreases |s|
  {
    if |s| > 0 {
      if s[0] in acc {
        var r := DedupInto(acc, s[1..]);
        assert DedupInto(acc, s) == r;
        DedupIntoOrder(acc, s[1..]);
        OrderTail(r[|acc|..], s);
      } else {
        var acc' := acc + [s[0]];
        var r := DedupInto(acc', s[1..]);
        assert DedupInto(acc, s) == r;
        DedupIntoOrder(acc', s[1..]);
        DedupNewFirst(acc, s, r);
      }
    }
  }

  /** Where `s[0]` is new, it comes first among the added elements and the
      rest follow in first-occurrence order. */
  lemma DedupNewFirst<T>(acc: seq<T>, s: seq<T>, r: seq<T>)
    requires |s| > 0 && |acc| + 1 <= |r| && r[..|acc| + 1] == acc + [s[0]]
    requires forall i :: |acc| + 1 <= i < |r| ==> r[i] in s[1..] && r[i] !in acc + [s[0]]
    requires InFirstOccurrenceOrder(r[|acc| + 1..], s[1..])
    ensures InFirstOccurrenceOrder(r[|acc|..], s)
  {
    var n := r[|acc|..];
    assert n[0] == s[0];
    var t := n[1..];
    assert t == r[|acc| + 1..];
    assert forall i :: 0 <= i < |t| ==> t[i] == r[|acc| + 1 + i];
    OrderTail(t, s);
    if |t| > 0 {
      assert IndexOf(s, t[0]) > 0;
    }
  }

  /** `[...new Set(s)]`: the distinct elements of `s`, kept in the order of
      their first occurrences. */
  function Dedup<T(==,!new)>(s: seq<T>): (r: seq<T>)
    ensures NoDuplicates(r)
    ensures forall x :: x in r <==> x in s
    ensures SubsequenceOf(r, s)
    ensures InFirstOccurrenceOrder(r, s)
  {
    var r := DedupInto([], s);
    assert r[0..] == r;
    DedupIntoOrder([], s);
    r
  }

  // ---------------------------------------------------------------------
  // A stable sort (Array.prototype.sort is stable since ES2019)
  // ---------------------------------------------------------------------

  ghost predicate TotalPreorder<T(!new)>(leq: (T, T) -> bool) {
    && (forall a, b :: leq(a, b) || leq(b, a))
    && (forall a, b, c :: leq(a, b) && leq(b, c) ==> leq(a, c))
  }

  ghost predicate SortedBy<T>(s: seq<T>, leq: (T, T) -> bool) {
    forall i, j :: 0 <= i < j < |s| ==> leq(s[i], s[j])
  }

  /** Putting in front of a sorted sequence an element that is at most all
      of its elements keeps it sorted. */
  lemma ConsSorted<T>(y: T, t: seq<T>, leq: (T, T) -> bool)
    requires SortedBy(t, leq)
    requires forall k :: 0 <= k < |t| ==> leq(y, t[k])
    ensures SortedBy([y] + t, leq)
  {
    var r := [y] + t;
    forall i, j | 0 <= i < j < |r| ensures leq(r[i], r[j]) {
      if i > 0 {
        assert r[i] == t[i - 1] && r[j] == t[j - 1];
      } else {
        assert r[j] == t[j - 1];
      }
    }
  }

  /** Inserts `x` before the first element it is not after. */
  function Insert<T(!new)>(x: T, s: seq<T>, leq: (T, T) -> bool): (r: seq<T>)
    requires TotalPreorder(leq)
    requires SortedBy(s, leq)
    ensures multiset(r) == multiset(s) + multiset{x}
    ensures SortedBy(r, leq)
  {
    if |s| == 0 then [x]
    else if leq(x, s[0]) then
      assert forall k :: 0 <= k < |s| ==> leq(x, s[k]) by {
        forall k | 0 <= k < |s| ensures leq(x, s[k]) {
          if k > 0 {
            assert leq(s[0], s[k]);
          }
        }
      }
      ConsSorted(x, s, leq);
      [x] + s
    else
      var t := s[1..];
      var rest := Insert(x, t, leq);
      assert s == [s[0]] + t;
      assert leq(s[0], x);
      assert forall k :: 0 <= k < |rest| ==> leq(s[0], rest[k]) by {
        forall k | 0 <= k < |rest| ensures leq(s[0], rest[k]) {
          assert rest[k] in multiset(rest);
          if rest[k] != x {
            assert rest[k] in multiset(t);
            var m :| 0 <= m < |t| && t[m] == rest[k];
            assert s[m + 1] == t[m];
          }
        }
      }
      ConsSorted(s[0], rest, leq);
      [s[0]] + rest
  }

  /** The elements `leq` cannot tell apart from `x`. */
  function Ties<T>(leq: (T, T) -> bool, x: T): T -> bool {
    (y: T) => leq(x, y) && leq(y, x)
  }

  lemma FilterCons<T(!new)>(x: T, s: seq<T>, p: T -> bool)
    ensures Filter([x] + s, p) == (if p(x) then [x] else []) + Filter(s, p)
  {
    assert ([x] + s)[1..] == s;
  }

  /** `x` lands in front of all its ties: among them, it comes first. */
  lemma {:induction false} InsertTies<T(!new)>(x: T, s: seq<T>, leq: (T, T) -> bool, z: T)
    requires TotalPreorder(leq)
    requires SortedBy(s, leq)
    ensures Filter(Insert(x, s, leq), Ties(leq, z)) == (if Ties(leq, z)(x) then [x] else []) + Filter(s, Ties(leq, z))
  {
    var p := Ties(leq, z);
    if |s| == 0 {
      FilterCons(x, [], p);
    } else if leq(x, s[0]) {
      FilterCons(x, s, p);
    } else {
      var t := s[1..];
      assert s == [s[0]] + t;
      assert SortedBy(t, leq);
      InsertTies(x, t, leq, z);
      FilterCons(s[0], Insert(x, t, leq), p);
      FilterCons(s[0], t, p);
      // x and s[0] cannot both tie with z, since then x would tie with s[0]
      assert !(p(x) && p(s[0]));
    }
  }

  /** A rearrangement that keeps the order of the elements `p` accepts is
      no rearrangement at all when `p` accepts every element. */
  lemma FilterAllSame<T(!new)>(r: seq<T>, s: seq<T>, p: T -> bool)
    requires multiset(r) == multiset(s)
    requires Filter(r, p) == Filter(s, p)
    requires forall i :: 0 <= i < |s| ==> p(s[i])
    ensures r == s
  {
    forall i | 0 <= i < |r| ensures p(r[i]) {
      assert r[i] in multiset(s);
    }
    FilterAll(s, p);
    FilterAll(r, p);
  }

  /** Insertion sort: a permutation of `s` ordered by `leq` that keeps
      elements `leq` cannot tell apart in their order in `s`. */
  function SortBy<T(==,!new)>(s: seq<T>, leq: (T, T) -> bool): (r: seq<T>)
    requires TotalPreorder(leq)
    ensures multiset(r) == multiset(s)
    ensures SortedBy(r, leq)
    ensures forall z :: Filter(r, Ties(leq, z)) == Filter(s, Ties(leq, z))
  {
    if |s| == 0 then []
    else
      assert s == [s[0]] + s[1..];
      var rest := SortBy(s[1..], leq);
      forall z ensures Filter(Insert(s[0], rest, leq), Ties(leq, z)) == Filter(s, Ties(leq, z)) {
        InsertTies(s[0], rest, leq, z);
        FilterCons(s[0], s[1..], Ties(leq, z));
      }
      Insert(s[0], rest, leq)
  }
}
