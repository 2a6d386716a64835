/**
  Character classes and string primitives with JavaScript's meaning:
  `\s`, `\d`, `\w`, `String.prototype.trim`, ASCII case mapping, and
  `split("\n")` / `join("\n")` together with their round trips.
 */
module Text {

  // ---------------------------------------------------------------------
  // Character classes
  // ---------------------------------------------------------------------

  /** The characters JavaScript's `\s` (and `trim`) treat as white space:
      the ASCII controls tab, LF, VT, FF, CR, the space, and the Unicode
      space separators, line/paragraph separators and the BOM. */
  predicate IsSpace(c: char) {
    || c == ' ' || c == '\t' || c == '\n' || c == '\U{B}' || c == '\U{C}' || c == '\r'
    || c == '\U{A0}' || c == '\U{1680}' || ('\U{2000}' <= c <= '\U{200A}')
    || c == '\U{2028}' || c == '\U{2029}' || c == '\U{202F}' || c == '\U{205F}'
    || c == '\U{3000}' || c == '\U{FEFF}'
  }

  predicate IsNewline(c: char) { c == '\n' }

  /** `\d` */
  predicate IsDigit(c: char) { '0' <= c <= '9' }

  predicate IsUpper(c: char) { 'A' <= c <= 'Z' }

  predicate IsLower(c: char) { 'a' <= c <= 'z' }

  predicate IsLetter(c: char) { IsUpper(c) || IsLower(c) }

  /** `\w` */
  predicate IsWordChar(c: char) { IsLetter(c) || IsDigit(c) || c == '_' }

  predicate AllSpace(s: string) {
    forall k :: 0 <= k < |s| ==> IsSpace(s[k])
  }

  predicate AllDigits(s: string) {
    forall k :: 0 <= k < |s| ==> IsDigit(s[k])
  }

  // ---------------------------------------------------------------------
  // ASCII case mapping (`toLowerCase` / `toUpperCase` restricted to ASCII)
  // ---------------------------------------------------------------------

  function LowerChar(c: char): char {
    if IsUpper(c) then (c as int + 32) as char else c
  }

  function UpperChar(c: char): char {
    if IsLower(c) then (c as int - 32) as char else c
  }

  function Lower(s: string): (r: string)
    ensures |r| == |s|
    ensures forall i :: 0 <= i < |s| ==> r[i] == LowerChar(s[i])
  {
    seq(|s|, i requires 0 <= i < |s| => LowerChar(s[i]))
  }

  function Upper(s: string): (r: string)
    ensures |r| == |s|
    ensures forall i :: 0 <= i < |s| ==> r[i] == UpperChar(s[i])
  {
    seq(|s|, i requires 0 <= i < |s| => UpperChar(s[i]))
  }

  /** Upper-casing leaves every line break where it was. */
  lemma UpperKeepsNewlines(s: string)
    ensures forall i :: 0 <= i < |s| ==> (Upper(s)[i] == '\n' <==> s[i] == '\n')
  {
  }

  // ---------------------------------------------------------------------
  // Runs of a character class
  // ---------------------------------------------------------------------

  /** The end of the maximal run of `p`-characters that starts at `i`. */
  function SpanFrom(s: string, i: nat, p: char -> bool): (j: nat)
    requires i <= |s|
    ensures i <= j <= |s|
    ensures forall k :: i <= k < j ==> p(s[k])
    ensures j < |s| ==> !p(s[j])
    decreases |s| - i
  {
    if i < |s| && p(s[i]) then SpanFrom(s, i + 1, p) else i
  }

  /** The start of the maximal run of `p`-characters that ends just before `j`. */
  function SpanBack(s: string, j: nat, p: char -> bool): (i: nat)
    requires j <= |s|
    ensures i <= j
    ensures forall k :: i <= k < j ==> p(s[k])
    ensures i > 0 ==> !p(s[i - 1])
    decreases j
  {
    if j > 0 && p(s[j - 1]) then SpanBack(s, j - 1, p) else j
  }

  /** A run that is maximal is the run `SpanFrom` finds. */
  lemma SpanFromUnique(s: string, i: nat, p: char -> bool, j: nat)
    requires i <= j <= |s|
    requires forall k :: i <= k < j ==> p(s[k])
    requires j < |s| ==> !p(s[j])
    ensures SpanFrom(s, i, p) == j
  {
  }

  // ---------------------------------------------------------------------
  // trim
  // ---------------------------------------------------------------------

  /** `s.trim()`: `s` with its leading and trailing white space removed.
      The contract pins the result down completely: it is the slice of `s`
      after the leading white space, everything outside it is white space,
      and it neither starts nor ends with white space. */
  function Trim(s: string): (r: string)
    ensures var a := SpanFrom(s, 0, IsSpace);
      && a + |r| <= |s|
      && r == s[a..a + |r|]
      && AllSpace(s[..a])
      && AllSpace(s[a + |r|..])
    ensures r == [] <==> AllSpace(s)
    ensures r != [] ==> !IsSpace(r[0]) && !IsSpace(r[|r| - 1])
  {
    var a := SpanFrom(s, 0, IsSpace);
    var b := SpanBack(s, |s|, IsSpace);
    var e := if b < a then a else b;
    var u := s[e..];
    assert AllSpace(u) by {
      forall k | 0 <= k < |u| ensures IsSpace(u[k]) {
        assert u[k] == s[e + k];
      }
    }
    assert AllSpace(s[..a]) by {
      forall k | 0 <= k < a ensures IsSpace(s[..a][k]) {
        assert s[..a][k] == s[k];
      }
    }
    s[a..e]
  }

  /** A string without white space at either end is its own trim. */
  lemma TrimOfTrimmed(s: string)
    requires s == [] || (!IsSpace(s[0]) && !IsSpace(s[|s| - 1]))
    ensures Trim(s) == s
  {
    var a := SpanFrom(s, 0, IsSpace);
    if s != [] {
      assert a == 0;
    }
  }

  /** Trimming twice is trimming once. */
  lemma TrimIdempotent(s: string)
    ensures Trim(Trim(s)) == Trim(s)
  {
    TrimOfTrimmed(Trim(s));
  }

  /** A slice with only white space around it, and none at its own ends,
      is the trim. */
  lemma TrimUnique(s: string, a: nat, e: nat)
    requires a <= e <= |s|
    requires AllSpace(s[..a]) && AllSpace(s[e..])
    requires a < e ==> !IsSpace(s[a]) && !IsSpace(s[e - 1])
    ensures Trim(s) == s[a..e]
  {
    var t := Trim(s);
    var b := SpanFrom(s, 0, IsSpace);
    if a == e {
      assert AllSpace(s) by {
        forall k | 0 <= k < |s| ensures IsSpace(s[k]) {
          if k < a { assert s[..a][k] == s[k]; } else { assert s[e..][k - e] == s[k]; }
        }
      }
    } else {
      assert forall k :: 0 <= k < a ==> s[..a][k] == s[k];
      SpanFromUnique(s, 0, IsSpace, a);
      assert t != [];
    }
  }

  /** White space at the end makes no difference to the trim. */
  lemma TrimIgnoresTrailingSpace(x: string, w: nat)
    requires w <= |x| && AllSpace(x[w..])
    ensures Trim(x) == Trim(x[..w])
  {
    var y := x[..w];
    var t := Trim(y);
    var a := SpanFrom(y, 0, IsSpace);
    var e := a + |t|;
    assert x[..a] == y[..a];
    SpaceJoin(x, e, w);
    if t != [] {
      assert t[0] == x[a] && t[|t| - 1] == x[e - 1];
    }
    TrimUnique(x, a, e);
    assert x[a..e] == y[a..e] by {
      forall k | 0 <= k < e - a ensures x[a..e][k] == y[a..e][k] {
        assert y[a + k] == x[a + k];
      }
    }
  }

  /** Two white-space runs that meet make one. */
  lemma SpaceJoin(x: string, e: nat, w: nat)
    requires e <= w <= |x|
    requires AllSpace(x[..w][e..]) && AllSpace(x[w..])
    ensures AllSpace(x[e..])
  {
    forall k | e <= k < |x| ensures IsSpace(x[k]) {
      if k < w { assert x[..w][e..][k - e] == x[k]; } else { assert x[w..][k - w] == x[k]; }
    }
  }

  // ---------------------------------------------------------------------
  // Prefixes and substrings
  // ---------------------------------------------------------------------

  /** `s.startsWith(p)` */
  predicate StartsWith(s: string, p: string) {
    |p| <= |s| && s[..|p|] == p
  }

  /** A prefix of a prefix is a prefix. */
  lemma StartsWithTrans(s: string, q: string, p: string)
    requires StartsWith(s, q) && StartsWith(q, p)
    ensures StartsWith(s, p)
  {
    assert s[..|p|] == s[..|q|][..|p|];
  }

  /** Two prefixes that differ at some index cannot both start `s`. */
  lemma StartsWithClash(s: string, p: string, q: string, i: nat)
    requires i < |p| && i < |q| && p[i] != q[i]
    ensures !(StartsWith(s, p) && StartsWith(s, q))
  {
    if |p| <= |s| && |q| <= |s| {
      assert s[..|p|][i] == s[i] == s[..|q|][i];
    }
  }

  /** `p` (written in lower case) occurs at index `i` of `s`, ignoring ASCII case. */
  predicate AtIgnoringCase(s: string, i: nat, p: string) {
    i + |p| <= |s| && Lower(s[i..i + |p|]) == p
  }

  /** `s.includes(p)` */
  predicate Contains(s: string, p: string)
    decreases |s|
  {
    StartsWith(s, p) || (|s| > 0 && Contains(s[1..], p))
  }

  /** `p` occurs in `s` starting at index `i`. */
  predicate OccursAt(s: string, p: string, i: nat) {
    i + |p| <= |s| && s[i..i + |p|] == p
  }

  /** `Contains` agrees with the positional definition: `p` occurs at some index. */
  lemma {:induction false} ContainsIff(s: string, p: string)
    ensures Contains(s, p) <==> exists i: nat :: OccursAt(s, p, i)
    decreases |s|
  {
    if exists i: nat :: OccursAt(s, p, i) {
      var i: nat :| OccursAt(s, p, i);
      if i > 0 {
        assert s[1..][i - 1..i - 1 + |p|] == p;
        assert OccursAt(s[1..], p, i - 1);
        ContainsIff(s[1..], p);
      }
    }
    if |s| > 0 && Contains(s[1..], p) {
      ContainsIff(s[1..], p);
      var i: nat :| OccursAt(s[1..], p, i);
      assert s[i + 1..i + 1 + |p|] == p;
      assert OccursAt(s, p, i + 1);
    }
    if StartsWith(s, p) {
      assert OccursAt(s, p, 0);
    }
  }

  // ---------------------------------------------------------------------
  // split("\n") and join("\n")
  // ---------------------------------------------------------------------

  predicate NoNewline(s: string) {
    '\n' !in s
  }

  predicate NoNewlines(lines: seq<string>) {
    forall i :: 0 <= i < |lines| ==> NoNewline(lines[i])
  }

  /** `s.split("\n")`: always at least one piece, and no piece contains a line break. */
  function Split(s: string): (r: seq<string>)
    ensures |r| >= 1
    ensures NoNewlines(r)
  {
    if |s| == 0 then [""]
    else
      var rest := Split(s[1..]);
      if s[0] == '\n' then [""] + rest
      else [[s[0]] + rest[0]] + rest[1..]
  }

  /** `lines.join("\n")` */
  function Join(lines: seq<string>): string {
    if |lines| == 0 then ""
    else if |lines| == 1 then lines[0]
    else lines[0] + "\n" + Join(lines[1..])
  }

  lemma ConcatAssoc(x: string, a: string, m: string, j: string)
    ensures (x + a) + m + j == x + (a + m + j)
  {
  }

  /** A character put in front of the first line is put in front of the text. */
  lemma JoinConsFirst(c: char, lines: seq<string>)
    requires |lines| >= 1
    ensures Join([[c] + lines[0]] + lines[1..]) == [c] + Join(lines)
  {
    var a := lines[0];
    var r := [[c] + a] + lines[1..];
    assert |r| == |lines| && r[0] == [c] + a && r[1..] == lines[1..];
    if |lines| > 1 {
      var j := Join(lines[1..]);
      calc {
        Join(r);
        ([c] + a) + "\n" + j;
        { ConcatAssoc([c], a, "\n", j); }
        [c] + (a + "\n" + j);
        [c] + Join(lines);
      }
    }
  }

  /** An empty first line puts a line break in front of the text. */
  lemma JoinConsEmpty(lines: seq<string>)
    requires |lines| >= 1
    ensures Join([""] + lines) == "\n" + Join(lines)
  {
    assert ([""] + lines)[1..] == lines;
  }

  /** Joining the pieces of a split gives back the original text. */
  lemma {:induction false} JoinSplit(s: string)
    ensures Join(Split(s)) == s
  {
    if |s| > 0 {
      var rest := Split(s[1..]);
      JoinSplit(s[1..]);
      if s[0] == '\n' {
        JoinConsEmpty(rest);
      } else {
        JoinConsFirst(s[0], rest);
      }
      assert s == [s[0]] + s[1..];
    }
  }

  /** Splitting text that has no line break yields that text alone. */
  lemma {:induction false} SplitNoNewline(s: string)
    requires NoNewline(s)
    ensures Split(s) == [s]
  {
    if |s| > 0 {
      assert NoNewline(s[1..]) by {
        assert forall c :: c in s[1..] ==> c in s;
      }
      SplitNoNewline(s[1..]);
      assert s == [s[0]] + s[1..];
    }
  }

  /** A line break after a newline-free prefix splits off exactly that prefix. */
  lemma {:induction false} SplitAfterLine(a: string, b: string)
    requires NoNewline(a)
    ensures Split(a + "\n" + b) == [a] + Split(b)
    decreases |a|
  {
    var s := a + "\n" + b;
    if |a| == 0 {
      assert s[1..] == b;
    } else {
      assert s[1..] == a[1..] + "\n" + b;
      assert NoNewline(a[1..]) by {
        assert forall c :: c in a[1..] ==> c in a;
      }
      SplitAfterLine(a[1..], b);
      assert a == [a[0]] + a[1..];
    }
  }

  /** Splitting joined lines gives back the lines, provided none holds a line break. */
  lemma {:induction false} SplitJoin(lines: seq<string>)
    requires |lines| >= 1
    requires NoNewlines(lines)
    ensures Split(Join(lines)) == lines
  {
    if |lines| == 1 {
      SplitNoNewline(lines[0]);
    } else {
      SplitAfterLine(lines[0], Join(lines[1..]));
      SplitJoin(lines[1..]);
    }
  }

  /** The last piece of a split is empty exactly when the text is empty
      or ends in a line break. */
  lemma {:induction false} SplitLastEmpty(s: string)
    ensures var r := Split(s);
      r[|r| - 1] == "" <==> |s| == 0 || s[|s| - 1] == '\n'
  {
    if |s| > 0 {
      var rest := Split(s[1..]);
      SplitLastEmpty(s[1..]);
      if s[0] == '\n' {
        assert Split(s)[|Split(s)| - 1] == rest[|rest| - 1];
      } else if |rest| == 1 {
        SplitSingleLine(s);
      } else {
        assert Split(s)[|Split(s)| - 1] == rest[|rest| - 1];
        assert |s[1..]| > 0;
      }
    }
  }

  /** A text whose tail is a single line is a single line ending in its last character. */
  lemma SplitSingleLine(s: string)
    requires |s| > 0 && s[0] != '\n' && |Split(s[1..])| == 1
    ensures Split(s) == [s] && s[|s| - 1] != '\n'
  {
    var rest := Split(s[1..]);
    JoinSplit(s[1..]);
    assert s[1..] == rest[0];
    assert s == [s[0]] + rest[0];
    assert NoNewline(rest[0]);
  }

  /** The joined text contains one line break per seam and none inside a line. */
  lemma {:induction false} JoinOfNewlineFree(lines: seq<string>, i: nat)
    requires NoNewlines(lines)
    requires |lines| >= 1 && i < |lines| - 1
    ensures Join(lines) == Join(lines[..i + 1]) + "\n" + Join(lines[i + 1..])
    decreases i
  {
    if i > 0 {
      JoinOfNewlineFree(lines[1..], i - 1);
      assert lines[1..][..i] == lines[1..i + 1];
      assert lines[1..][i..] == lines[i + 1..];
      assert lines[..i + 1][1..] == lines[1..i + 1];
    }
  }

  // ---------------------------------------------------------------------
  // Decimal rendering of a number (template-literal interpolation)
  // ---------------------------------------------------------------------

  function DigitChar(d: nat): char
    requires d < 10
  {
    ('0' as int + d) as char
  }

  /** The number a string of decimal digits spells (`parseInt(s, 10)`). */
  function DigitsValue(s: string): nat
    requires AllDigits(s)
  {
    if |s| == 0 then 0
    else DigitsValue(s[..|s| - 1]) * 10 + (s[|s| - 1] as int - '0' as int)
  }

  /** `${n}` for a non-negative integer: the digits that parse back to `n`,
      with no leading zero. */
  function NatToString(n: nat): (r: string)
    ensures |r| >= 1 && AllDigits(r)
    ensures DigitsValue(r) == n
    ensures n > 0 ==> r[0] != '0'
  {
    if n < 10 then [DigitChar(n)]
    else
      var head := NatToString(n / 10);
      var r := head + [DigitChar(n % 10)];
      assert r[..|r| - 1] == head;
      r
  }

  // ---------------------------------------------------------------------
  // String order (`<` on strings; `localeCompare` is read as this order)
  // ---------------------------------------------------------------------

  /** `a < b`: lexicographic order of the characters, a proper prefix first. */
  predicate Less(a: string, b: string)
    decreases |a|
  {
    |b| > 0 && (|a| == 0 || a[0] < b[0] || (a[0] == b[0] && Less(a[1..], b[1..])))
  }

  lemma {:induction false} LessIrreflexive(a: string)
    ensures !Less(a, a)
  {
    if |a| > 0 {
      LessIrreflexive(a[1..]);
    }
  }

  lemma {:induction false} LessAsymmetric(a: string, b: string)
    requires Less(a, b)
    ensures !Less(b, a)
  {
    if |a| > 0 && a[0] == b[0] {
      LessAsymmetric(a[1..], b[1..]);
    }
  }

  lemma {:induction false} LessTrichotomy(a: string, b: string)
    ensures Less(a, b) || a == b || Less(b, a)
  {
    if |a| > 0 && |b| > 0 && a[0] == b[0] {
      LessTrichotomy(a[1..], b[1..]);
      assert a == [a[0]] + a[1..] && b == [b[0]] + b[1..];
    }
  }

  /** Two different strings are ordered one way and not the other. */
  lemma LessStrict(a: string, b: string)
    requires a != b
    ensures Less(a, b) != Less(b, a)
  {
    LessTrichotomy(a, b);
    if Less(a, b) {
      LessAsymmetric(a, b);
    }
  }

  lemma {:induction false} LessTransitive(a: string, b: string, c: string)
    requires Less(a, b) && Less(b, c)
    ensures Less(a, c)
  {
    if |a| > 0 && a[0] == b[0] && b[0] == c[0] {
      LessTransitive(a[1..], b[1..], c[1..]);
    }
  }
}
