/**
 * Column classifier and line builder (teste2.py:80-165): the page's words,
 * as the text-extraction collaborator delivers them, become text lines in
 * reading order.
 */
module Layout {
  import opened Base

  /** One extracted word: the three fields the core reads. */
  datatype Word = Word(text: seq<char>, x0: real, top: real)

  /** LINE_Y_TOLERANCE (teste2.py:44). */
  const LineYTolerance: int := 4

  // ---------------------------------------------------------------------------
  // detect_column_boundary
  // ---------------------------------------------------------------------------

  function X0s(words: seq<Word>): (xs: seq<real>)
    ensures |xs| == |words| && forall i :: 0 <= i < |words| ==> xs[i] == words[i].x0
  {
    if words == [] then [] else X0s(words[..|words| - 1]) + [words[|words| - 1].x0]
  }

  function Abs(x: real): real { if x < 0.0 then -x else x }

  function MaxOf(s: seq<real>): (m: real)
    requires s != []
    ensures m in s && forall x :: x in s ==> x <= m
  {
    if |s| == 1 then s[0]
    else
      var m0 := MaxOf(s[1..]);
      assert s == [s[0]] + s[1..];
      if s[0] > m0 then s[0] else m0
  }

  function MinOf(s: seq<real>): (m: real)
    requires s != []
    ensures m in s && forall x :: x in s ==> m <= x
  {
    if |s| == 1 then s[0]
    else
      var m0 := MinOf(s[1..]);
      assert s == [s[0]] + s[1..];
      if s[0] < m0 then s[0] else m0
  }

  function Mid(pageWidth: real): real { pageWidth / 2.0 }

  /** search_window = mid * 0.4. */
  function Window(pageWidth: real): real { Mid(pageWidth) * 0.4 }

  /** Start positions closer to the page centre than the search window. */
  function CentreXs(xs: seq<real>, pageWidth: real): seq<real> {
    Filter(xs, x => Abs(x - Mid(pageWidth)) < Window(pageWidth))
  }

  function LeftXs(xs: seq<real>, pageWidth: real): seq<real> {
    Filter(CentreXs(xs, pageWidth), x => x < Mid(pageWidth))
  }

  function RightXs(xs: seq<real>, pageWidth: real): seq<real> {
    Filter(CentreXs(xs, pageWidth), x => x >= Mid(pageWidth))
  }

  function BoundaryOf(xs: seq<real>, pageWidth: real): Option<real> {
    if xs == [] then None
    else if CentreXs(xs, pageWidth) == [] then None
    else SplitBoundary(LeftXs(xs, pageWidth), RightXs(xs, pageWidth))
  }

  /** The decision on the two central groups: enough words on each side and a wide enough gap. */
  function SplitBoundary(left: seq<real>, right: seq<real>): Option<real> {
    if |left| < 5 || |right| < 5 then None
    else
      var leftMax := MaxOf(left);
      var rightMin := MinOf(right);
      if rightMin <= leftMax then None
      else if rightMin - leftMax < 5.0 then None
      else Some((leftMax + rightMin) / 2.0)
  }

  /** The two early exits on an empty page or an empty band agree with the group-size test. */
  lemma BoundaryOfIsSplit(xs: seq<real>, pageWidth: real)
    ensures BoundaryOf(xs, pageWidth) == SplitBoundary(LeftXs(xs, pageWidth), RightXs(xs, pageWidth))
  {
    if xs == [] || CentreXs(xs, pageWidth) == [] {
      assert CentreXs(xs, pageWidth) == [];
      assert |LeftXs(xs, pageWidth)| == 0;
    }
  }

  /** detect_column_boundary: the x-coordinate splitting a two-column page, or None. */
  function DetectColumnBoundary(words: seq<Word>, pageWidth: real): (r: Option<real>)
    ensures r.Some? ==> Abs(r.value - Mid(pageWidth)) < Window(pageWidth)
  {
    BoundaryInBand(X0s(words), pageWidth);
    BoundaryOf(X0s(words), pageWidth)
  }

  /** A boundary lies between two words of the central band, so inside the band. */
  lemma BoundaryInBand(xs: seq<real>, pageWidth: real)
    ensures BoundaryOf(xs, pageWidth).Some? ==> Abs(BoundaryOf(xs, pageWidth).value - Mid(pageWidth)) < Window(pageWidth)
  {
    BoundaryOfIsSplit(xs, pageWidth);
    var left, right := LeftXs(xs, pageWidth), RightXs(xs, pageWidth);
    if BoundaryOf(xs, pageWidth).Some? {
      var lm, rm := MaxOf(left), MinOf(right);
      var b := BoundaryOf(xs, pageWidth).value;
      assert b == (lm + rm) / 2.0 && lm < rm;
      assert lm in CentreXs(xs, pageWidth) && rm in CentreXs(xs, pageWidth);
      assert Abs(lm - Mid(pageWidth)) < Window(pageWidth) && Abs(rm - Mid(pageWidth)) < Window(pageWidth);
      assert Mid(pageWidth) - Window(pageWidth) < b < Mid(pageWidth) + Window(pageWidth);
    }
  }

  /** Both central groups have five or more words and a gap of at least 5 points separates them. */
  predicate TwoColumnEvidence(xs: seq<real>, pageWidth: real) {
    var left := LeftXs(xs, pageWidth);
    var right := RightXs(xs, pageWidth);
    |left| >= 5 && |right| >= 5 && MinOf(right) - MaxOf(left) >= 5.0
  }

  /**
   * A boundary is found exactly when there is two-column evidence, and then it
   * is the midpoint of the gap, strictly between the two groups.
   */
  lemma BoundaryCharacterised(words: seq<Word>, pageWidth: real)
    ensures DetectColumnBoundary(words, pageWidth).Some? <==> TwoColumnEvidence(X0s(words), pageWidth)
    ensures DetectColumnBoundary(words, pageWidth).Some? ==>
      var b := DetectColumnBoundary(words, pageWidth).value;
      var left := LeftXs(X0s(words), pageWidth);
      var right := RightXs(X0s(words), pageWidth);
      b == (MaxOf(left) + MinOf(right)) / 2.0
      && MaxOf(left) < b < MinOf(right)
      && (forall x :: x in left ==> x < b)
      && (forall x :: x in right ==> b < x)
  {
    var xs := X0s(words);
    if |LeftXs(xs, pageWidth)| >= 5 {
      assert CentreXs(xs, pageWidth) != [];
      assert xs != [];
    }
  }

  /** A page whose words all start outside the central band is single-column. */
  lemma NoCentralWordsNoBoundary(words: seq<Word>, pageWidth: real)
    requires forall i :: 0 <= i < |words| ==> Abs(words[i].x0 - Mid(pageWidth)) >= Window(pageWidth)
    ensures DetectColumnBoundary(words, pageWidth) == None
  {
  }

  /**
   * Five words at x = 50..90 and five at x = 500..540 on a 600-point page: the
   * central band is 180..420, which holds none of them, so there is no boundary.
   */
  lemma FarColumnsGiveNoBoundary(words: seq<Word>)
    requires forall i :: 0 <= i < |words| ==> 50.0 <= words[i].x0 <= 90.0 || 500.0 <= words[i].x0 <= 540.0
    ensures DetectColumnBoundary(words, 600.0) == None
  {
    forall i | 0 <= i < |words| ensures Abs(words[i].x0 - Mid(600.0)) >= Window(600.0) {
      assert Mid(600.0) == 300.0 && Window(600.0) == 120.0;
    }
    NoCentralWordsNoBoundary(words, 600.0);
  }

  lemma FilterSameMultiset(a: seq<real>, b: seq<real>, p: real -> bool)
    requires multiset(a) == multiset(b)
    ensures multiset(Filter(a, p)) == multiset(Filter(b, p))
  {
    forall y | true ensures multiset(Filter(a, p))[y] == multiset(Filter(b, p))[y] {
      FilterMultiset(a, p, y);
      FilterMultiset(b, p, y);
    }
  }

  lemma SameElementsSameExtremes(a: seq<real>, b: seq<real>)
    requires multiset(a) == multiset(b) && a != []
    ensures b != [] && MaxOf(a) == MaxOf(b) && MinOf(a) == MinOf(b)
  {
    assert |b| == |multiset(b)| == |multiset(a)| == |a|;
    assert forall x :: x in a <==> x in b by {
      forall x | true ensures x in a <==> x in b {
        assert x in a <==> x in multiset(a);
        assert x in b <==> x in multiset(b);
      }
    }
  }

  /** The boundary depends only on the multiset of start positions, not on word order. */
  lemma {:induction false} BoundaryIgnoresOrder(a: seq<Word>, b: seq<Word>, pageWidth: real)
    requires multiset(X0s(a)) == multiset(X0s(b))
    ensures DetectColumnBoundary(a, pageWidth) == DetectColumnBoundary(b, pageWidth)
  {
    var xa, xb := X0s(a), X0s(b);
    BoundaryOfIsSplit(xa, pageWidth);
    BoundaryOfIsSplit(xb, pageWidth);
    FilterSameMultiset(xa, xb, x => Abs(x - Mid(pageWidth)) < Window(pageWidth));
    var ca, cb := CentreXs(xa, pageWidth), CentreXs(xb, pageWidth);
    FilterSameMultiset(ca, cb, x => x < Mid(pageWidth));
    FilterSameMultiset(ca, cb, x => x >= Mid(pageWidth));
    SplitBoundarySame(LeftXs(xa, pageWidth), LeftXs(xb, pageWidth), RightXs(xa, pageWidth), RightXs(xb, pageWidth));
  }

  lemma SplitBoundarySame(la: seq<real>, lb: seq<real>, ra: seq<real>, rb: seq<real>)
    requires multiset(la) == multiset(lb) && multiset(ra) == multiset(rb)
    ensures SplitBoundary(la, ra) == SplitBoundary(lb, rb)
  {
    assert |la| == |multiset(la)| == |multiset(lb)| == |lb|;
    assert |ra| == |multiset(ra)| == |multiset(rb)| == |rb|;
    if la != [] && ra != [] {
      SameElementsSameExtremes(la, lb);
      SameElementsSameExtremes(ra, rb);
    }
  }

  // ---------------------------------------------------------------------------
  // words_to_lines
  // ---------------------------------------------------------------------------

  /** Python's round() on a real: to the nearest integer, ties to the even one. */
  function RoundHalfEven(x: real): int {
    var f := x.Floor;
    var d := x - f as real;
    if d < 0.5 then f else if d > 0.5 then f + 1 else if f % 2 == 0 then f else f + 1
  }

  /** round(w["top"] / y_tolerance) * y_tolerance. */
  function BucketKey(w: Word, yTolerance: int): int
    requires yTolerance != 0
  {
    RoundHalfEven(w.top / yTolerance as real) * yTolerance
  }

  /** The keys of the bucket dict in insertion order (first occurrence). */
  function FirstKeys(words: seq<Word>, yTolerance: int): (r: seq<int>)
    requires yTolerance != 0
    ensures Distinct(r)
    ensures forall k :: k in r <==> exists i :: 0 <= i < |words| && BucketKey(words[i], yTolerance) == k
  {
    if words == [] then []
    else
      var init := words[..|words| - 1];
      var r0 := FirstKeys(init, yTolerance);
      var k := BucketKey(words[|words| - 1], yTolerance);
      assert forall i :: 0 <= i < |init| ==> init[i] == words[i];
      if k in r0 then r0 else r0 + [k]
  }

  /** buckets[k]: the words with key k, in input order. */
  function Bucket(words: seq<Word>, yTolerance: int, k: int): seq<Word>
    requires yTolerance != 0
  {
    Filter(words, w => BucketKey(w, yTolerance) == k)
  }

  predicate SortedByX0(s: seq<Word>) {
    forall i, j :: 0 <= i < j < |s| ==> s[i].x0 <= s[j].x0
  }

  function InsertByX0(w: Word, s: seq<Word>): (r: seq<Word>)
    ensures multiset(r) == multiset(s) + multiset{w}
    ensures forall y :: y in r ==> y == w || y in s
  {
    if s == [] || w.x0 <= s[0].x0 then [w] + s
    else
      assert s == [s[0]] + s[1..];
      [s[0]] + InsertByX0(w, s[1..])
  }

  lemma {:induction false} InsertByX0Sorted(w: Word, s: seq<Word>)
    requires SortedByX0(s)
    ensures SortedByX0(InsertByX0(w, s))
  {
    if s == [] || w.x0 <= s[0].x0 {
    } else {
      var t := InsertByX0(w, s[1..]);
      InsertByX0Sorted(w, s[1..]);
      assert forall y :: y in t ==> s[0].x0 <= y.x0 by {
        forall y | y in t ensures s[0].x0 <= y.x0 {
          if y != w {
            var k :| 1 <= k < |s| && s[k] == y;
          }
        }
      }
      assert InsertByX0(w, s) == [s[0]] + t;
    }
  }

  /** sorted(bucket, key=lambda x: x["x0"]): a stable insertion sort. */
  function SortByX0(s: seq<Word>): (r: seq<Word>)
    ensures multiset(r) == multiset(s)
    ensures SortedByX0(r)
  {
    if s == [] then []
    else
      assert s == [s[0]] + s[1..];
      InsertByX0Sorted(s[0], SortByX0(s[1..]));
      InsertByX0(s[0], SortByX0(s[1..]))
  }

  predicate AtX0(x: real, w: Word) { w.x0 == x }

  /** The words that start at x, in order. */
  function WithX0(s: seq<Word>, x: real): seq<Word> {
    Filter(s, (w: Word) => AtX0(x, w))
  }

  lemma WithX0Cons(w: Word, t: seq<Word>, x: real)
    ensures WithX0([w] + t, x) == (if w.x0 == x then [w] else []) + WithX0(t, x)
  {
    FilterCons(w, t, (v: Word) => AtX0(x, v));
  }

  lemma {:induction false} InsertByX0Stable(w: Word, s: seq<Word>, x: real)
    ensures WithX0(InsertByX0(w, s), x) == (if w.x0 == x then [w] else []) + WithX0(s, x)
    decreases |s|
  {
    if s == [] || w.x0 <= s[0].x0 {
      WithX0Cons(w, s, x);
    } else {
      var rest := InsertByX0(w, s[1..]);
      InsertByX0Stable(w, s[1..], x);
      WithX0Cons(s[0], rest, x);
      WithX0Cons(s[0], s[1..], x);
      assert s == [s[0]] + s[1..];
      var mine := if w.x0 == x then [w] else [];
      var head := if s[0].x0 == x then [s[0]] else [];
      assert WithX0(InsertByX0(w, s), x) == head + (mine + WithX0(s[1..], x));
      assert WithX0(s, x) == head + WithX0(s[1..], x);
      assert head == [] || mine == [];
    }
  }

  /**
   * The sort of a bucket is stable: words that start at the same x keep the
   * order in which they were extracted, as Python's sorted() keeps them.
   */
  lemma {:induction false} SortByX0Stable(s: seq<Word>, x: real)
    ensures WithX0(SortByX0(s), x) == WithX0(s, x)
    decreases |s|
  {
    if s != [] {
      SortByX0Stable(s[1..], x);
      InsertByX0Stable(s[0], SortByX0(s[1..]), x);
      WithX0Cons(s[0], s[1..], x);
      assert s == [s[0]] + s[1..];
    }
  }

  function Texts(words: seq<Word>): (r: seq<seq<char>>)
    ensures |r| == |words|
  {
    if words == [] then [] else Texts(words[..|words| - 1]) + [words[|words| - 1].text]
  }

  /** " ".join(w["text"] for w in line_words). */
  function LineText(words: seq<Word>): seq<char> {
    JoinWith(Texts(words), " ")
  }

  /** The line keys: sorted(buckets.keys()). */
  function LineKeys(words: seq<Word>, yTolerance: int): seq<int>
    requires yTolerance != 0
  {
    SortInts(FirstKeys(words, yTolerance))
  }

  /** One x0-sorted word group per key of `keys`. */
  function GroupsFor(words: seq<Word>, yTolerance: int, keys: seq<int>): (r: seq<seq<Word>>)
    requires yTolerance != 0
    ensures |r| == |keys|
    ensures forall j :: 0 <= j < |keys| ==> r[j] == SortByX0(Bucket(words, yTolerance, keys[j]))
  {
    if keys == [] then []
    else GroupsFor(words, yTolerance, keys[..|keys| - 1]) + [SortByX0(Bucket(words, yTolerance, keys[|keys| - 1]))]
  }

  /** The word groups that words_to_lines turns into lines, in output order. */
  function LineGroups(words: seq<Word>, yTolerance: int): seq<seq<Word>>
    requires yTolerance != 0
  {
    GroupsFor(words, yTolerance, LineKeys(words, yTolerance))
  }

  function RenderLines(groups: seq<seq<Word>>): (r: seq<seq<char>>)
    ensures |r| == |groups|
    ensures forall t :: 0 <= t < |groups| ==> r[t] == LineText(groups[t])
  {
    if groups == [] then [] else RenderLines(groups[..|groups| - 1]) + [LineText(groups[|groups| - 1])]
  }

  lemma {:induction false} RenderLinesAppend(a: seq<seq<Word>>, b: seq<seq<Word>>)
    ensures RenderLines(a + b) == RenderLines(a) + RenderLines(b)
    decreases |b|
  {
    if b == [] {
      assert a + b == a;
    } else {
      assert (a + b)[..|a + b| - 1] == a + b[..|b| - 1];
      RenderLinesAppend(a, b[..|b| - 1]);
    }
  }

  /** Adding one word to the prefix: its key is appended if new, and only its bucket grows. */
  lemma BucketStep(prefix: seq<Word>, w: Word, yTolerance: int)
    requires yTolerance != 0
    ensures var key := BucketKey(w, yTolerance);
      && FirstKeys(prefix + [w], yTolerance)
         == (if key in FirstKeys(prefix, yTolerance) then FirstKeys(prefix, yTolerance) else FirstKeys(prefix, yTolerance) + [key])
      && (forall k :: Bucket(prefix + [w], yTolerance, k) == Bucket(prefix, yTolerance, k) + (if key == k then [w] else []))
      && (key !in FirstKeys(prefix, yTolerance) ==> Bucket(prefix, yTolerance, key) == [])
  {
    var s := prefix + [w];
    assert s[..|s| - 1] == prefix;
    var key := BucketKey(w, yTolerance);
    if key !in FirstKeys(prefix, yTolerance) {
      BucketAbsent(prefix, yTolerance, key);
    }
  }

  lemma {:induction false} BucketAbsent(words: seq<Word>, yTolerance: int, k: int)
    requires yTolerance != 0
    requires k !in FirstKeys(words, yTolerance)
    ensures Bucket(words, yTolerance, k) == []
    decreases |words|
  {
    if words != [] {
      var init := words[..|words| - 1];
      assert k !in FirstKeys(init, yTolerance);
      BucketAbsent(init, yTolerance, k);
    }
  }

  /** The map and the key order after one more word, as the first loop of words_to_lines updates them. */
  lemma AddWordKeeps(prefix: seq<Word>, w: Word, yTolerance: int, buckets: map<int, seq<Word>>, order: seq<int>)
    requires yTolerance != 0
    requires order == FirstKeys(prefix, yTolerance)
    requires forall k :: k in buckets <==> k in order
    requires forall k :: k in buckets ==> buckets[k] == Bucket(prefix, yTolerance, k)
    ensures var key := BucketKey(w, yTolerance);
      var b2 := if key in buckets then buckets[key := buckets[key] + [w]] else buckets[key := [w]];
      var o2 := if key in buckets then order else order + [key];
      && o2 == FirstKeys(prefix + [w], yTolerance)
      && (forall k :: k in b2 <==> k in o2)
      && (forall k :: k in b2 ==> b2[k] == Bucket(prefix + [w], yTolerance, k))
  {
    var key := BucketKey(w, yTolerance);
    BucketStep(prefix, w, yTolerance);
    var b2 := if key in buckets then buckets[key := buckets[key] + [w]] else buckets[key := [w]];
    var o2 := if key in buckets then order else order + [key];
    forall k | k in b2
      ensures b2[k] == Bucket(prefix + [w], yTolerance, k)
    {
      if k != key {
        assert b2[k] == buckets[k];
      }
    }
    forall k
      ensures k in b2 <==> k in o2
    {
      assert k in o2 <==> k in order || k == key;
    }
  }

  /** The first loop of words_to_lines: the bucket dict and its key insertion order. */
  method CollectBuckets(words: seq<Word>, yTolerance: int) returns (buckets: map<int, seq<Word>>, order: seq<int>)
    requires yTolerance != 0
    ensures order == FirstKeys(words, yTolerance)
    ensures forall k :: k in buckets <==> k in order
    ensures forall k :: k in buckets ==> buckets[k] == Bucket(words, yTolerance, k)
  {
    buckets := map[];
    order := [];
    for i := 0 to |words|
      invariant order == FirstKeys(words[..i], yTolerance)
      invariant forall k :: k in buckets <==> k in order
      invariant forall k :: k in buckets ==> buckets[k] == Bucket(words[..i], yTolerance, k)
    {
      var w := words[i];
      var key := BucketKey(w, yTolerance);
      assert words[..i + 1] == words[..i] + [w];
      AddWordKeeps(words[..i], w, yTolerance, buckets, order);
      if key in buckets {
        buckets := buckets[key := buckets[key] + [w]];
      } else {
        buckets := buckets[key := [w]];
        order := order + [key];
      }
    }
    assert words[..|words|] == words;
  }

  /** The second loop of words_to_lines: one line per key, its words ordered by x0. */
  method RenderBuckets(buckets: map<int, seq<Word>>, keys: seq<int>) returns (lines: seq<seq<char>>)
    requires forall t :: 0 <= t < |keys| ==> keys[t] in buckets
    ensures |lines| == |keys|
    ensures forall t :: 0 <= t < |keys| ==> lines[t] == LineText(SortByX0(buckets[keys[t]]))
  {
    lines := [];
    for j := 0 to |keys|
      invariant |lines| == j
      invariant forall t :: 0 <= t < j ==> lines[t] == LineText(SortByX0(buckets[keys[t]]))
    {
      var lineWords := SortByX0(buckets[keys[j]]);
      lines := lines + [LineText(lineWords)];
    }
  }

  /** words_to_lines: bucket by quantised top, order buckets by key, order each bucket by x0. */
  method WordsToLines(words: seq<Word>, yTolerance: int) returns (lines: seq<seq<char>>)
    requires yTolerance != 0
    ensures lines == RenderLines(LineGroups(words, yTolerance))
  {
    if |words| == 0 {
      return [];
    }
    var buckets, order := CollectBuckets(words, yTolerance);
    var keys := SortInts(order);
    assert forall t :: 0 <= t < |keys| ==> keys[t] in buckets by {
      forall t | 0 <= t < |keys| ensures keys[t] in buckets {
        assert keys[t] in keys;
      }
    }
    lines := RenderBuckets(buckets, keys);
    forall t | 0 <= t < |keys| ensures lines[t] == LineText(SortByX0(Bucket(words, yTolerance, keys[t]))) {
      assert keys[t] in keys;
    }
    RenderedGroups(words, yTolerance, keys, lines);
  }

  /** Lines rendered one per key, each from its key's bucket sorted by x0, are the rendered groups for those keys. */
  lemma RenderedGroups(words: seq<Word>, yTolerance: int, keys: seq<int>, lines: seq<seq<char>>)
    requires yTolerance != 0
    requires |lines| == |keys|
    requires forall t :: 0 <= t < |keys| ==> lines[t] == LineText(SortByX0(Bucket(words, yTolerance, keys[t])))
    ensures lines == RenderLines(GroupsFor(words, yTolerance, keys))
  {
  }

  /** The words whose key is one of `keys`. */
  function KeyedWords(words: seq<Word>, yTolerance: int, keys: seq<int>): seq<Word>
    requires yTolerance != 0
  {
    Filter(words, w => BucketKey(w, yTolerance) in keys)
  }

  /** Adding a key not yet listed adds exactly that key's bucket to the keyed words. */
  lemma KeyedWordsSnoc(words: seq<Word>, yTolerance: int, init: seq<int>, k: int)
    requires yTolerance != 0
    requires k !in init
    ensures multiset(KeyedWords(words, yTolerance, init + [k]))
         == multiset(KeyedWords(words, yTolerance, init)) + multiset(Bucket(words, yTolerance, k))
  {
    var keys := init + [k];
    var p := (w: Word) => BucketKey(w, yTolerance) in keys;
    var q := (w: Word) => BucketKey(w, yTolerance) in init;
    var e := (w: Word) => BucketKey(w, yTolerance) == k;
    forall y | true
      ensures multiset(KeyedWords(words, yTolerance, init))[y] + multiset(Bucket(words, yTolerance, k))[y]
           == multiset(KeyedWords(words, yTolerance, keys))[y]
    {
      FilterMultiset(words, p, y);
      FilterMultiset(words, q, y);
      FilterMultiset(words, e, y);
      assert BucketKey(y, yTolerance) in keys <==> BucketKey(y, yTolerance) in init || BucketKey(y, yTolerance) == k;
    }
  }

  lemma {:induction false} GroupsForMultiset(words: seq<Word>, yTolerance: int, keys: seq<int>)
    requires yTolerance != 0
    requires Distinct(keys)
    ensures multiset(Concat(GroupsFor(words, yTolerance, keys))) == multiset(KeyedWords(words, yTolerance, keys))
    decreases |keys|
  {
    if keys == [] {
      var p := (w: Word) => BucketKey(w, yTolerance) in keys;
      forall y | true ensures multiset(KeyedWords(words, yTolerance, keys))[y] == 0 {
        FilterMultiset(words, p, y);
      }
    } else {
      var init := keys[..|keys| - 1];
      var k := keys[|keys| - 1];
      assert Distinct(init);
      assert keys == init + [k];
      GroupsForMultiset(words, yTolerance, init);
      var g := GroupsFor(words, yTolerance, keys);
      var b := Bucket(words, yTolerance, k);
      assert g == GroupsFor(words, yTolerance, init) + [SortByX0(b)];
      assert Concat(g) == Concat(GroupsFor(words, yTolerance, init)) + SortByX0(b);
      assert k !in init;
      KeyedWordsSnoc(words, yTolerance, init, k);
    }
  }

  /** Every input word appears in exactly one line (as many times as it occurs in the input). */
  lemma LinesKeepEveryWord(words: seq<Word>, yTolerance: int)
    requires yTolerance != 0
    ensures multiset(Concat(LineGroups(words, yTolerance))) == multiset(words)
  {
    var keys := LineKeys(words, yTolerance);
    SortIntsIncreasing(FirstKeys(words, yTolerance));
    assert Distinct(keys);
    GroupsForMultiset(words, yTolerance, keys);
    var p := (w: Word) => BucketKey(w, yTolerance) in keys;
    forall y | true ensures multiset(KeyedWords(words, yTolerance, keys))[y] == multiset(words)[y] {
      FilterMultiset(words, p, y);
      if y in words {
        var i :| 0 <= i < |words| && words[i] == y;
        assert BucketKey(words[i], yTolerance) in FirstKeys(words, yTolerance);
      }
    }
  }

  /**
   * Lines come out in strictly increasing key order, each line holds words of
   * its own key only, sorted by x0, and no line is empty; no words, no lines.
   */
  lemma LinesOrdered(words: seq<Word>, yTolerance: int)
    requires yTolerance != 0
    ensures var keys := LineKeys(words, yTolerance);
      var groups := LineGroups(words, yTolerance);
      StrictlyIncreasing(keys) && |groups| == |keys|
      && (forall j :: 0 <= j < |groups| ==> groups[j] != [] && SortedByX0(groups[j]))
      && (forall j, w :: 0 <= j < |groups| && w in groups[j] ==> BucketKey(w, yTolerance) == keys[j])
      && (groups == [] <==> words == [])
  {
    var keys := LineKeys(words, yTolerance);
    var groups := LineGroups(words, yTolerance);
    SortIntsIncreasing(FirstKeys(words, yTolerance));
    forall j | 0 <= j < |groups|
      ensures groups[j] != [] && forall w :: w in groups[j] ==> BucketKey(w, yTolerance) == keys[j]
    {
      assert keys[j] in keys;
      GroupOfKey(words, yTolerance, keys[j]);
    }
    if words != [] {
      assert BucketKey(words[0], yTolerance) in FirstKeys(words, yTolerance);
      assert |keys| > 0;
    }
  }

  /** The group of a key that occurs is non-empty and holds only words of that key. */
  lemma GroupOfKey(words: seq<Word>, yTolerance: int, k: int)
    requires yTolerance != 0
    requires k in FirstKeys(words, yTolerance)
    ensures var g := SortByX0(Bucket(words, yTolerance, k));
      g != [] && forall w :: w in g ==> BucketKey(w, yTolerance) == k
  {
    var b := Bucket(words, yTolerance, k);
    var g := SortByX0(b);
    var i :| 0 <= i < |words| && BucketKey(words[i], yTolerance) == k;
    FilterMultiset(words, w => BucketKey(w, yTolerance) == k, words[i]);
    assert words[i] in multiset(words);
    assert words[i] in multiset(g);
    forall w | w in g ensures BucketKey(w, yTolerance) == k {
      assert w in multiset(g);
      assert w in b;
    }
  }

  // ---------------------------------------------------------------------------
  // extract_page_lines without the page object (teste2.py:153-165)
  // ---------------------------------------------------------------------------

  function LeftWords(words: seq<Word>, boundary: real): seq<Word> {
    Filter(words, (w: Word) => w.x0 < boundary)
  }

  function RightWords(words: seq<Word>, boundary: real): seq<Word> {
    Filter(words, (w: Word) => w.x0 >= boundary)
  }

  /** The word groups of a page: left column's lines, then right column's. */
  function PageGroups(words: seq<Word>, pageWidth: real): seq<seq<Word>> {
    if words == [] then []
    else match DetectColumnBoundary(words, pageWidth)
      case None => LineGroups(words, LineYTolerance)
      case Some(b) => LineGroups(LeftWords(words, b), LineYTolerance) + LineGroups(RightWords(words, b), LineYTolerance)
  }

  /** extract_page_lines with the page's words and width as inputs. */
  method ExtractPageLines(words: seq<Word>, pageWidth: real) returns (lines: seq<seq<char>>)
    ensures lines == RenderLines(PageGroups(words, pageWidth))
  {
    if |words| == 0 {
      return [];
    }
    var boundary := DetectColumnBoundary(words, pageWidth);
    if boundary == None {
      lines := WordsToLines(words, LineYTolerance);
      return;
    }
    var leftWords := Filter(words, (w: Word) => w.x0 < boundary.value);
    var rightWords := Filter(words, (w: Word) => w.x0 >= boundary.value);
    var leftLines := WordsToLines(leftWords, LineYTolerance);
    var rightLines := WordsToLines(rightWords, LineYTolerance);
    RenderLinesAppend(LineGroups(leftWords, LineYTolerance), LineGroups(rightWords, LineYTolerance));
    lines := leftLines + rightLines;
  }

  /** The boundary splits the words into the two columns without losing or duplicating any. */
  lemma ColumnsPartition(words: seq<Word>, b: real)
    ensures multiset(LeftWords(words, b)) + multiset(RightWords(words, b)) == multiset(words)
    ensures forall w :: w in LeftWords(words, b) ==> w.x0 < b
    ensures forall w :: w in RightWords(words, b) ==> w.x0 >= b
  {
    forall y | true ensures multiset(LeftWords(words, b))[y] + multiset(RightWords(words, b))[y] == multiset(words)[y] {
      FilterMultiset(words, (w: Word) => w.x0 < b, y);
      FilterMultiset(words, (w: Word) => w.x0 >= b, y);
    }
  }

  /** A word of a line is a word of the input. */
  lemma GroupMember(words: seq<Word>, yTolerance: int, j: nat, w: Word)
    requires yTolerance != 0
    requires j < |LineGroups(words, yTolerance)| && w in LineGroups(words, yTolerance)[j]
    ensures w in words
  {
    LinesKeepEveryWord(words, yTolerance);
    ConcatMember(LineGroups(words, yTolerance), j, w);
    assert w in multiset(Concat(LineGroups(words, yTolerance)));
  }

  /** On a page, every word lands in exactly one line. */
  lemma PageKeepsEveryWord(words: seq<Word>, pageWidth: real)
    ensures multiset(Concat(PageGroups(words, pageWidth))) == multiset(words)
  {
    if words != [] {
      match DetectColumnBoundary(words, pageWidth)
      case None =>
        LinesKeepEveryWord(words, LineYTolerance);
      case Some(b) =>
        var gl, gr := LineGroups(LeftWords(words, b), LineYTolerance), LineGroups(RightWords(words, b), LineYTolerance);
        LinesKeepEveryWord(LeftWords(words, b), LineYTolerance);
        LinesKeepEveryWord(RightWords(words, b), LineYTolerance);
        ConcatAppend(gl, gr);
        ColumnsPartition(words, b);
    }
  }

  /**
   * On a two-column page the left column's lines come first: a word is in one
   * of the first lines exactly when it starts left of the boundary.
   */
  lemma PageColumnsInOrder(words: seq<Word>, pageWidth: real, b: real)
    requires words != [] && DetectColumnBoundary(words, pageWidth) == Some(b)
    ensures var g := PageGroups(words, pageWidth);
      var ng := |LineGroups(LeftWords(words, b), LineYTolerance)|;
      forall j, w :: 0 <= j < |g| && w in g[j] ==> (j < ng <==> w.x0 < b)
  {
    var gl, gr := LineGroups(LeftWords(words, b), LineYTolerance), LineGroups(RightWords(words, b), LineYTolerance);
    var g := PageGroups(words, pageWidth);
    assert g == gl + gr;
    ColumnsPartition(words, b);
    forall j, w: Word | 0 <= j < |g| && w in g[j] ensures (j < |gl| <==> w.x0 < b) {
      if j < |gl| {
        assert g[j] == gl[j];
        GroupMember(LeftWords(words, b), LineYTolerance, j, w);
      } else {
        assert g[j] == gr[j - |gl|];
        GroupMember(RightWords(words, b), LineYTolerance, j - |gl|, w);
      }
    }
  }

  lemma {:induction false} ConcatMember<T>(parts: seq<seq<T>>, j: nat, x: T)
    requires j < |parts| && x in parts[j]
    ensures x in Concat(parts)
    decreases |parts|
  {
    if j < |parts| - 1 {
      ConcatMember(parts[..|parts| - 1], j, x);
    }
  }
}
