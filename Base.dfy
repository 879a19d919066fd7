/**
 * Character classes, the Python string primitives the extractor relies on
 * (strip, upper, join, int of a digit string, str.format of a number) and
 * small sequence helpers shared by every stage.
 *
 * Character classes are exact over Latin-1 (U+0000..U+00FF), the alphabet
 * the Portuguese exam text lives in; whitespace is exact for every character
 * Python's str.isspace accepts.
 */
module Base {

  datatype Option<T> = None | Some(value: T)

  // ---------------------------------------------------------------------------
  // Character classes
  // ---------------------------------------------------------------------------

  /** `\s` of a str pattern; also what str.strip() removes. */
  predicate IsSpace(c: char) {
    c == ' ' || ('\t' <= c <= '\r') || ('\U{1C}' <= c <= '\U{1F}') || c == '\U{85}' || c == '\U{A0}'
    || c == '\U{1680}' || ('\U{2000}' <= c <= '\U{200A}') || c == '\U{2028}' || c == '\U{2029}'
    || c == '\U{202F}' || c == '\U{205F}' || c == '\U{3000}'
  }

  /** `\d`; the only decimal digits of Latin-1 are the ASCII ones. */
  predicate IsDigit(c: char) { '0' <= c <= '9' }

  predicate NotNewline(c: char) { c != '\n' }

  /** str.isupper() of a single character. */
  predicate IsUpper(c: char) {
    ('A' <= c <= 'Z') || ('\U{C0}' <= c <= '\U{DE}' && c != '\U{D7}')
  }

  /** str.lower() of a single character (the identity outside the cased letters). */
  function Lower(c: char): (r: char)
    ensures !IsUpper(c) ==> r == c
  {
    if IsUpper(c) then (c as int + 32) as char else c
  }

  /** How an IGNORECASE pattern compares a text character with a pattern character. */
  predicate CiEq(c: char, p: char) { Lower(c) == Lower(p) }

  /** `\w` of a str pattern: str.isalnum() or the underscore. */
  predicate IsWordChar(c: char) {
    ('a' <= c <= 'z') || ('A' <= c <= 'Z') || IsDigit(c) || c == '_'
    || c == '\U{AA}' || c == '\U{B2}' || c == '\U{B3}' || c == '\U{B5}' || c == '\U{B9}' || c == '\U{BA}'
    || ('\U{BC}' <= c <= '\U{BE}')
    || ('\U{C0}' <= c <= '\U{FF}' && c != '\U{D7}' && c != '\U{F7}')
  }

  /** str.upper(): one character may become two ('ß' becomes "SS"). */
  function UpperChar(c: char): seq<char> {
    if 'a' <= c <= 'z' || ('\U{E0}' <= c <= '\U{FE}' && c != '\U{F7}') then [(c as int - 32) as char]
    else if c == '\U{DF}' then "SS"
    else if c == '\U{FF}' then ['\U{178}']
    else if c == '\U{B5}' then ['\U{39C}']
    else [c]
  }

  function Upper(s: seq<char>): seq<char> {
    if s == [] then [] else Upper(s[..|s| - 1]) + UpperChar(s[|s| - 1])
  }

  // ---------------------------------------------------------------------------
  // Scanning helpers
  // ---------------------------------------------------------------------------

  /** The end of the run of characters satisfying `p` that starts at `i`. */
  function SpanEnd(s: seq<char>, i: nat, p: char -> bool): (j: nat)
    requires i <= |s|
    ensures i <= j <= |s| && (j == |s| || !p(s[j]))
    ensures forall k :: i <= k < j ==> p(s[k])
    decreases |s| - i
  {
    if i < |s| && p(s[i]) then SpanEnd(s, i + 1, p) else i
  }

  predicate AllSpace(s: seq<char>) { forall k :: 0 <= k < |s| ==> IsSpace(s[k]) }

  /** `$` at position j: the end of the string, or just before a final newline. */
  predicate AtEnd(s: seq<char>, j: nat) {
    j == |s| || (j + 1 == |s| && s[j] == '\n')
  }

  /** The IGNORECASE literal `w` occurs in `s` at position i. */
  predicate CiAt(s: seq<char>, i: nat, w: seq<char>) {
    i + |w| <= |s| && forall k :: 0 <= k < |w| ==> CiEq(s[i + k], w[k])
  }

  /** A literal whose first character does not match is not at i. */
  lemma NotCiAtHead(s: seq<char>, i: nat, w: seq<char>)
    requires i < |s| && |w| > 0 && !CiEq(s[i], w[0])
    ensures !CiAt(s, i, w)
  {
    assert s[i + 0] == s[i];
  }

  /** The case-sensitive literal `w` occurs in `s` at position i. */
  predicate LitAt(s: seq<char>, i: nat, w: seq<char>) {
    i + |w| <= |s| && s[i..i + |w|] == w
  }

  /** `w in s` for strings. */
  predicate Contains(s: seq<char>, w: seq<char>) {
    exists i :: 0 <= i <= |s| && LitAt(s, i, w)
  }

  // ---------------------------------------------------------------------------
  // str.strip, str.lstrip, str.rstrip
  // ---------------------------------------------------------------------------

  function LStrip(s: seq<char>): seq<char> {
    if s != [] && IsSpace(s[0]) then LStrip(s[1..]) else s
  }

  function RStrip(s: seq<char>): seq<char> {
    if s != [] && IsSpace(s[|s| - 1]) then RStrip(s[..|s| - 1]) else s
  }

  function Strip(s: seq<char>): seq<char> {
    RStrip(LStrip(s))
  }

  /** lstrip() removes exactly the leading whitespace. */
  lemma {:induction false} LStripFacts(s: seq<char>)
    ensures var r := LStrip(s);
      |r| <= |s| && r == s[|s| - |r|..] && (r == [] || !IsSpace(r[0])) && AllSpace(s[..|s| - |r|])
    decreases |s|
  {
    if s != [] && IsSpace(s[0]) {
      LStripFacts(s[1..]);
      var r := LStrip(s);
      assert s[..|s| - |r|] == [s[0]] + s[1..][..|s| - 1 - |r|];
    }
  }

  /** rstrip() removes exactly the trailing whitespace. */
  lemma {:induction false} RStripFacts(s: seq<char>)
    ensures var r := RStrip(s);
      |r| <= |s| && r == s[..|r|] && (r == [] || !IsSpace(r[|r| - 1])) && AllSpace(s[|r|..])
    decreases |s|
  {
    if s != [] && IsSpace(s[|s| - 1]) {
      var init := s[..|s| - 1];
      RStripFacts(init);
      var r := RStrip(s);
      assert s[|r|..] == init[|r|..] + [s[|s| - 1]];
    }
  }

  /**
   * strip() leaves no whitespace at either end, keeps a sub-string of the
   * input, and removes only whitespace on either side of it.
   */
  lemma StripFacts(s: seq<char>)
    ensures var r, a := Strip(s), |s| - |LStrip(s)|;
      (r == [] || (!IsSpace(r[0]) && !IsSpace(r[|r| - 1])))
      && |LStrip(s)| <= |s| && |r| <= |LStrip(s)|
      && r == s[a..a + |r|]
      && AllSpace(s[..a]) && AllSpace(s[a + |r|..])
  {
    LStripFacts(s);
    var l := LStrip(s);
    RStripFacts(l);
    assert s[|s| - |l| + |Strip(s)|..] == l[|Strip(s)|..];
  }

  /** The non-whitespace characters of s, in order: what stripping and re-spacing never change. */
  function NonSpace(s: seq<char>): seq<char> {
    if s == [] then [] else NonSpace(s[..|s| - 1]) + (if IsSpace(s[|s| - 1]) then [] else [s[|s| - 1]])
  }

  lemma {:induction false} NonSpaceAppend(a: seq<char>, b: seq<char>)
    ensures NonSpace(a + b) == NonSpace(a) + NonSpace(b)
    decreases |b|
  {
    if b == [] {
      assert a + b == a;
    } else {
      assert (a + b)[..|a + b| - 1] == a + b[..|b| - 1];
      NonSpaceAppend(a, b[..|b| - 1]);
    }
  }

  lemma {:induction false} NonSpaceAllSpace(s: seq<char>)
    requires AllSpace(s)
    ensures NonSpace(s) == []
    decreases |s|
  {
    if s != [] {
      NonSpaceAllSpace(s[..|s| - 1]);
    }
  }

  lemma NonSpaceLStrip(s: seq<char>)
    ensures NonSpace(LStrip(s)) == NonSpace(s)
  {
    LStripFacts(s);
    var l := LStrip(s);
    var pre := s[..|s| - |l|];
    assert s == pre + l;
    NonSpaceAppend(pre, l);
    NonSpaceAllSpace(pre);
  }

  lemma NonSpaceRStrip(s: seq<char>)
    ensures NonSpace(RStrip(s)) == NonSpace(s)
  {
    RStripFacts(s);
    var r := RStrip(s);
    var post := s[|r|..];
    assert s == r + post;
    NonSpaceAppend(r, post);
    NonSpaceAllSpace(post);
  }

  lemma NonSpaceStrip(s: seq<char>)
    ensures NonSpace(Strip(s)) == NonSpace(s)
  {
    NonSpaceLStrip(s);
    NonSpaceRStrip(LStrip(s));
  }

  /** Joining two pieces with a space keeps exactly their non-whitespace text. */
  lemma NonSpaceSpaced(a: seq<char>, b: seq<char>)
    ensures NonSpace(a + " " + b) == NonSpace(a) + NonSpace(b)
  {
    var sp: seq<char> := " ";
    NonSpaceAllSpace(sp);
    NonSpaceAppend(a, sp);
    NonSpaceAppend(a + sp, b);
  }

  // ---------------------------------------------------------------------------
  // Joining and flattening
  // ---------------------------------------------------------------------------

  /** sep.join(parts). */
  function JoinWith(parts: seq<seq<char>>, sep: seq<char>): seq<char> {
    if |parts| == 0 then []
    else if |parts| == 1 then parts[0]
    else JoinWith(parts[..|parts| - 1], sep) + sep + parts[|parts| - 1]
  }

  /** The joined text, followed by one more separator, starts with the first part and a separator. */
  lemma {:induction false} JoinWithHead(parts: seq<seq<char>>, sep: seq<char>)
    requires parts != []
    ensures |JoinWith(parts, sep) + sep| >= |parts[0]| + |sep|
    ensures (JoinWith(parts, sep) + sep)[..|parts[0]| + |sep|] == parts[0] + sep
    decreases |parts|
  {
    if |parts| > 1 {
      var init := parts[..|parts| - 1];
      JoinWithHead(init, sep);
      assert init[0] == parts[0];
      var j := JoinWith(init, sep) + sep;
      var n := |parts[0]| + |sep|;
      assert JoinWith(parts, sep) + sep == j + (parts[|parts| - 1] + sep);
      assert (j + (parts[|parts| - 1] + sep))[..n] == j[..n];
    }
  }

  /** The joined text starts with the first part. */
  lemma JoinStartsWith(parts: seq<seq<char>>, sep: seq<char>)
    requires parts != []
    ensures |JoinWith(parts, sep)| >= |parts[0]|
    ensures JoinWith(parts, sep)[..|parts[0]|] == parts[0]
  {
    JoinWithHead(parts, sep);
    var out := JoinWith(parts, sep);
    var n := |parts[0]|;
    assert (out + sep)[..n + |sep|][..n] == parts[0];
    assert (out + sep)[..n] == out[..n];
  }

  lemma AppendAssoc<T>(a: seq<T>, b: seq<T>, c: seq<T>)
    ensures a + (b + c) == (a + b) + c
  {
  }

  /** A suffix of a sequence is the same suffix of all but its last element, then that element. */
  lemma SuffixSnoc<T>(s: seq<T>, i: nat)
    requires i < |s|
    ensures s[i..] == s[..|s| - 1][i..] + [s[|s| - 1]]
  {
  }

  /** A slice that lies within a prefix is the same slice of the prefix. */
  lemma SliceInPrefix<T>(s: seq<T>, p: nat, i: nat, j: nat)
    requires i <= j <= p <= |s|
    ensures s[i..j] == s[..p][i..j]
  {
  }

  function Concat<T>(parts: seq<seq<T>>): seq<T> {
    if parts == [] then [] else Concat(parts[..|parts| - 1]) + parts[|parts| - 1]
  }

  lemma {:induction false} ConcatAppend<T>(a: seq<seq<T>>, b: seq<seq<T>>)
    ensures Concat(a + b) == Concat(a) + Concat(b)
    decreases |b|
  {
    if b == [] {
      assert a + b == a;
    } else {
      var init := b[..|b| - 1];
      var last := b[|b| - 1];
      assert (a + b)[..|a + b| - 1] == a + init;
      assert (a + b)[|a + b| - 1] == last;
      assert Concat(a + b) == Concat(a + init) + last;
      ConcatAppend(a, init);
      assert Concat(b) == Concat(init) + last;
      AppendAssoc(Concat(a), Concat(init), last);
    }
  }

  function Filter<T>(s: seq<T>, p: T -> bool): (r: seq<T>)
    ensures |r| <= |s|
    ensures forall x :: x in r ==> x in s && p(x)
  {
    if s == [] then [] else Filter(s[..|s| - 1], p) + (if p(s[|s| - 1]) then [s[|s| - 1]] else [])
  }

  /** Filtering a sequence with a head added filters the head, then the rest. */
  lemma {:induction false} FilterCons<T>(x: T, t: seq<T>, p: T -> bool)
    ensures Filter([x] + t, p) == (if p(x) then [x] else []) + Filter(t, p)
    decreases |t|
  {
    var s := [x] + t;
    if t == [] {
      assert s[..0] == [] && s[0] == x;
    } else {
      var init := t[..|t| - 1];
      var last := t[|t| - 1];
      assert s[..|s| - 1] == [x] + init && s[|s| - 1] == last;
      FilterCons(x, init, p);
      var one: seq<T> := if p(last) then [last] else [];
      assert Filter(s, p) == Filter([x] + init, p) + one;
      assert Filter(t, p) == Filter(init, p) + one;
    }
  }

  lemma {:induction false} FilterAppend<T>(a: seq<T>, b: seq<T>, p: T -> bool)
    ensures Filter(a + b, p) == Filter(a, p) + Filter(b, p)
    decreases |b|
  {
    if b == [] {
      assert a + b == a;
    } else {
      var init := b[..|b| - 1];
      var last := b[|b| - 1];
      var t := if p(last) then [last] else [];
      assert (a + b)[..|a + b| - 1] == a + init;
      assert (a + b)[|a + b| - 1] == last;
      assert Filter(a + b, p) == Filter(a + init, p) + t;
      FilterAppend(a, init, p);
      assert Filter(b, p) == Filter(init, p) + t;
      AppendAssoc(Filter(a, p), Filter(init, p), t);
    }
  }

  /** A filter keeps exactly the occurrences of the elements it accepts. */
  lemma {:induction false} FilterMultiset<T>(s: seq<T>, p: T -> bool, y: T)
    ensures multiset(Filter(s, p))[y] == if p(y) then multiset(s)[y] else 0
    decreases |s|
  {
    if s != [] {
      FilterMultiset(s[..|s| - 1], p, y);
      assert s == s[..|s| - 1] + [s[|s| - 1]];
    }
  }

  // ---------------------------------------------------------------------------
  // Numbers as text
  // ---------------------------------------------------------------------------

  function DigitChar(d: nat): char
    requires d < 10
  {
    ('0' as int + d) as char
  }

  /** str(n) for a non-negative integer. */
  function NatToString(n: nat): (r: seq<char>)
    ensures |r| >= 1 && forall k :: 0 <= k < |r| ==> IsDigit(r[k])
  {
    if n < 10 then [DigitChar(n)] else NatToString(n / 10) + [DigitChar(n % 10)]
  }

  /** f"{n:02d}": zero-padded to at least two characters. */
  function Pad2(n: nat): (r: seq<char>)
    ensures |r| >= 2
  {
    if n < 10 then ['0', DigitChar(n)] else NatToString(n)
  }

  function Pow10(k: nat): nat {
    if k == 0 then 1 else 10 * Pow10(k - 1)
  }

  /** int(s) for a string of ASCII digits. */
  function DigitsValue(s: seq<char>): (v: nat)
    requires forall k :: 0 <= k < |s| ==> IsDigit(s[k])
    ensures v < Pow10(|s|)
  {
    if s == [] then 0
    else
      var init := s[..|s| - 1];
      assert forall k :: 0 <= k < |init| ==> IsDigit(init[k]) by {
        forall k | 0 <= k < |init| ensures IsDigit(init[k]) { assert init[k] == s[k]; }
      }
      assert IsDigit(s[|s| - 1]);
      var d := s[|s| - 1] as int - '0' as int;
      var v0 := DigitsValue(init);
      assert v0 * 10 + d < Pow10(|s|) by {
        assert Pow10(|s|) == 10 * Pow10(|init|);
        assert v0 + 1 <= Pow10(|init|);
        assert (v0 + 1) * 10 <= 10 * Pow10(|init|);
      }
      v0 * 10 + d
  }

  // ---------------------------------------------------------------------------
  // sorted() of a list of distinct integers
  // ---------------------------------------------------------------------------

  predicate StrictlyIncreasing(s: seq<int>) {
    forall i, j :: 0 <= i < j < |s| ==> s[i] < s[j]
  }

  function InsertInt(x: int, s: seq<int>): (r: seq<int>)
    ensures |r| == |s| + 1
    ensures forall y :: y in r <==> y == x || y in s
  {
    if s == [] || x < s[0] then [x] + s
    else [s[0]] + InsertInt(x, s[1..])
  }

  lemma IncreasingTail(s: seq<int>)
    requires s != [] && StrictlyIncreasing(s)
    ensures StrictlyIncreasing(s[1..])
    ensures forall y :: y in s[1..] ==> s[0] < y
  {
    forall i, j | 0 <= i < j < |s[1..]| ensures s[1..][i] < s[1..][j] {
      assert s[1..][i] == s[i + 1] && s[1..][j] == s[j + 1];
    }
    forall y | y in s[1..] ensures s[0] < y {
      var k :| 0 <= k < |s[1..]| && s[1..][k] == y;
      assert s[k + 1] == y;
    }
  }

  lemma IncreasingCons(h: int, t: seq<int>)
    requires StrictlyIncreasing(t) && forall y :: y in t ==> h < y
    ensures StrictlyIncreasing([h] + t)
  {
    forall i, j | 0 <= i < j < |[h] + t| ensures ([h] + t)[i] < ([h] + t)[j] {
      assert ([h] + t)[j] == t[j - 1];
      assert t[j - 1] in t;
      if i > 0 {
        assert ([h] + t)[i] == t[i - 1];
      }
    }
  }

  /** Inserting a new value into an increasing sequence keeps it increasing. */
  lemma {:induction false} InsertIntIncreasing(x: int, s: seq<int>)
    requires StrictlyIncreasing(s) && x !in s
    ensures StrictlyIncreasing(InsertInt(x, s))
    decreases |s|
  {
    if s == [] || x < s[0] {
      if s != [] {
        IncreasingTail(s);
        assert s == [s[0]] + s[1..];
      }
      forall y | y in s ensures x < y {
        if y != s[0] {
          assert y in s[1..] by { assert s == [s[0]] + s[1..]; }
        }
      }
      IncreasingCons(x, s);
    } else {
      IncreasingTail(s);
      InsertIntIncreasing(x, s[1..]);
      IncreasingCons(s[0], InsertInt(x, s[1..]));
    }
  }

  /** Python's sorted(); on distinct integers its result is the increasing enumeration. */
  function SortInts(s: seq<int>): (r: seq<int>)
    ensures |r| == |s|
    ensures forall y :: y in r <==> y in s
  {
    if s == [] then [] else InsertInt(s[0], SortInts(s[1..]))
  }

  predicate Distinct<T(==)>(s: seq<T>) {
    forall i, j :: 0 <= i < j < |s| ==> s[i] != s[j]
  }

  lemma {:induction false} SortIntsIncreasing(s: seq<int>)
    requires Distinct(s)
    ensures StrictlyIncreasing(SortInts(s))
    decreases |s|
  {
    if s != [] {
      assert Distinct(s[1..]) by {
        forall i, j | 0 <= i < j < |s[1..]| ensures s[1..][i] != s[1..][j] {
          assert s[1..][i] == s[i + 1] && s[1..][j] == s[j + 1];
        }
      }
      SortIntsIncreasing(s[1..]);
      assert s[0] !in s[1..] by {
        forall k | 0 <= k < |s[1..]| ensures s[1..][k] != s[0] {
          assert s[1..][k] == s[k + 1];
        }
      }
      InsertIntIncreasing(s[0], SortInts(s[1..]));
    }
  }

  /** A set with no member is the empty set. */
  lemma EmptyIfNoMember(s: set<int>)
    ensures (forall x :: x !in s) ==> s == {}
  {
    if forall x :: x !in s {
      assert s == {};
    }
  }

  lemma {:induction false} MinExists(s: set<int>)
    requires s != {}
    ensures exists m :: m in s && forall y :: y in s ==> m <= y
    decreases |s|
  {
    EmptyIfNoMember(s);
    var x :| x in s;
    var rest := s - {x};
    if rest == {} {
      LowerBoundOf(s, rest, x, x);
    } else {
      MinExists(rest);
      var m :| m in rest && forall y :: y in rest ==> m <= y;
      LowerBoundOf(s, rest, x, if x < m then x else m);
    }
  }

  /** A value at most x and at most every other member, that is itself a member, is a least member. */
  lemma LowerBoundOf(s: set<int>, rest: set<int>, x: int, least: int)
    requires x in s && rest == s - {x}
    requires least == x || least in rest
    requires least <= x && forall y :: y in rest ==> least <= y
    ensures exists m :: m in s && forall y :: y in s ==> m <= y
  {
    forall y | y in s ensures least <= y {
      if y != x {
        assert y in rest;
      }
    }
    assert least in s;
  }

  /** sorted() of a set of integers: its members in increasing order. */
  ghost function SortedOf(s: set<int>): (r: seq<int>)
    ensures StrictlyIncreasing(r)
    ensures forall y :: y in r <==> y in s
    decreases |s|
  {
    if s == {} then []
    else
      MinExists(s);
      var m :| m in s && forall y :: y in s ==> m <= y;
      var rest := SortedOf(s - {m});
      assert forall y :: y in rest ==> m < y;
      IncreasingCons(m, rest);
      [m] + rest
  }

  /** Two increasing sequences with the same members are equal. */
  lemma {:induction false} IncreasingUnique(a: seq<int>, b: seq<int>)
    requires StrictlyIncreasing(a) && StrictlyIncreasing(b)
    requires forall y :: y in a <==> y in b
    ensures a == b
    decreases |a|
  {
    if a != [] {
      assert a[0] in a;
    }
    if b != [] {
      assert b[0] in b;
    }
    if a != [] && b != [] {
      IncreasingTail(a);
      IncreasingTail(b);
      assert a == [a[0]] + a[1..] && b == [b[0]] + b[1..];
      assert a[0] in a && b[0] in b;
      assert a[0] in b && b[0] in a;
      assert a[0] == b[0];
      forall y ensures y in a[1..] <==> y in b[1..] {
        assert y in a <==> y == a[0] || y in a[1..];
        assert y in b <==> y == b[0] || y in b[1..];
      }
      IncreasingUnique(a[1..], b[1..]);
    }
  }

  /** A sequence holding the members of a set once each, in any order. */
  method Elements(s: set<int>) returns (xs: seq<int>)
    ensures Distinct(xs)
    ensures forall y :: y in xs <==> y in s
  {
    xs := [];
    var rest := s;
    while rest != {}
      invariant rest <= s
      invariant forall y :: y in xs <==> y in s && y !in rest
      invariant Distinct(xs)
      decreases |rest|
    {
      EmptyIfNoMember(rest);
      var x :| x in rest;
      xs := xs + [x];
      rest := rest - {x};
    }
  }

  /** `sorted(s)` for a set of integers. */
  method SortSet(s: set<int>) returns (r: seq<int>)
    ensures r == SortedOf(s)
  {
    var xs := Elements(s);
    r := SortInts(xs);
    SortIntsIncreasing(xs);
    IncreasingUnique(r, SortedOf(s));
  }
}
