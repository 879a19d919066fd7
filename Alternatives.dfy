/**
 * The choice normaliser, merge_alternativas (teste2.py:200-252): two passes
 * over the cleaned lines that rejoin answer choices the page layout broke.
 * Pass 1 joins a bare letter line "A" with the line after it; pass 2 lets a
 * full choice line "A text" absorb the continuation lines that follow it.
 */
module Alternatives {
  import opened Base
  import opened Patterns

  /**
   * What the two passes see of a line: its stripped text and what the
   * patterns say about that text. The passes and their lemmas take the view
   * as a parameter; ShapeOf is the one merge_alternativas uses.
   */
  datatype Shape = Shape(text: seq<char>, blank: bool, upperStart: bool, letterOnly: bool,
                         fullChoice: bool, header: bool, areaHeader: bool)

  /** line.strip(), its emptiness and first character, and LETTER_ONLY_RE, FULL_ALT_RE, QUESTAO_SEARCH_RE and AREA_HEADER_RE on it. */
  function ShapeOf(line: seq<char>): Shape {
    var s := Strip(line);
    Shape(s, s == [], s != [] && IsUpper(s[0]), IsLetterOnly(s), IsFullChoice(s),
          ContainsQuestao(s), ContainsAreaHeader(s))
  }

  /** The text a view reports is the stripped line. */
  ghost predicate StripsLines(shape: seq<char> -> Shape) {
    forall line :: NonSpace(shape(line).text) == NonSpace(line)
  }

  lemma ShapeOfStrips()
    ensures StripsLines(ShapeOf)
  {
    forall line: seq<char> ensures NonSpace(ShapeOf(line).text) == NonSpace(line) {
      NonSpaceStrip(line);
    }
  }

  // ---------------------------------------------------------------------------
  // Pass 1: a bare letter and the line after it
  // ---------------------------------------------------------------------------

  /** The guard on the line after a bare letter (teste2.py:216-219). */
  predicate Joinable(k: Shape) {
    !k.blank && !k.header && !k.letterOnly && !k.fullChoice
  }

  /** Pass 1 joins lines i and i + 1. */
  predicate PairsAt(lines: seq<seq<char>>, i: nat, shape: seq<char> -> Shape) {
    i + 1 < |lines| && shape(lines[i]).letterOnly && Joinable(shape(lines[i + 1]))
  }

  /** f"{line} {next_line}" of the two stripped lines. */
  function JoinPair(letter: Shape, next: Shape): seq<char> {
    letter.text + " " + next.text
  }

  /** What pass 1 appends from index i on. */
  function Pass1From(lines: seq<seq<char>>, i: nat, shape: seq<char> -> Shape): (r: seq<seq<char>>)
    requires i <= |lines|
    ensures |r| <= |lines| - i
    decreases |lines| - i
  {
    if i == |lines| then []
    else if PairsAt(lines, i, shape) then [JoinPair(shape(lines[i]), shape(lines[i + 1]))] + Pass1From(lines, i + 2, shape)
    else [lines[i]] + Pass1From(lines, i + 1, shape)
  }

  // ---------------------------------------------------------------------------
  // Pass 2: a full choice and its continuation lines
  // ---------------------------------------------------------------------------

  /** The guard on a continuation line (teste2.py:237-242): lower-case start, no structure. */
  predicate Continues(k: Shape) {
    !k.blank && !k.fullChoice && !k.letterOnly && !k.header && !k.areaHeader && !k.upperStart
  }

  /** The index where the inner loop of pass 2 stops, starting from j. */
  function ContEnd(lines: seq<seq<char>>, j: nat, shape: seq<char> -> Shape): (e: nat)
    requires j <= |lines|
    ensures j <= e <= |lines|
    decreases |lines| - j
  {
    if j < |lines| && Continues(shape(lines[j])) then ContEnd(lines, j + 1, shape) else j
  }

  /** The scan absorbs continuation lines only, and stops at the first line that is not one. */
  lemma {:induction false} ContEndStops(lines: seq<seq<char>>, j: nat, shape: seq<char> -> Shape)
    requires j <= |lines|
    ensures forall k :: j <= k < ContEnd(lines, j, shape) ==> Continues(shape(lines[k]))
    ensures ContEnd(lines, j, shape) == |lines| || !Continues(shape(lines[ContEnd(lines, j, shape)]))
    decreases |lines| - j
  {
    if j < |lines| && Continues(shape(lines[j])) {
      ContEndStops(lines, j + 1, shape);
    }
  }

  /** The line built from lines[i] after absorbing lines[i + 1 .. j]. */
  function Absorbed(lines: seq<seq<char>>, i: nat, j: nat, shape: seq<char> -> Shape): seq<char>
    requires i < j <= |lines|
    decreases j
  {
    if j == i + 1 then lines[i] else RStrip(Absorbed(lines, i, j - 1, shape)) + " " + shape(lines[j - 1]).text
  }

  /** What pass 2 appends from index i on. */
  function Pass2From(lines: seq<seq<char>>, i: nat, shape: seq<char> -> Shape): (r: seq<seq<char>>)
    requires i <= |lines|
    ensures |r| <= |lines| - i
    decreases |lines| - i
  {
    if i == |lines| then []
    else if shape(lines[i]).fullChoice then
      var e := ContEnd(lines, i + 1, shape);
      [Absorbed(lines, i, e, shape)] + Pass2From(lines, e, shape)
    else [lines[i]] + Pass2From(lines, i + 1, shape)
  }

  /** Both passes, with a given classifier. */
  function MergeWith(lines: seq<seq<char>>, shape: seq<char> -> Shape): seq<seq<char>> {
    var p1 := Pass1From(lines, 0, shape);
    Pass2From(p1, 0, shape)
  }

  /** What merge_alternativas returns. */
  function MergeSpec(lines: seq<seq<char>>): seq<seq<char>> {
    MergeWith(lines, ShapeOf)
  }

  /** One step of pass 1 at a bare letter that takes the next line. */
  lemma Pass1UnfoldPair(lines: seq<seq<char>>, i: nat, shape: seq<char> -> Shape)
    requires i < |lines| && PairsAt(lines, i, shape)
    ensures Pass1From(lines, i, shape) == [JoinPair(shape(lines[i]), shape(lines[i + 1]))] + Pass1From(lines, i + 2, shape)
  {
  }

  /** One step of pass 1 at any other line. */
  lemma Pass1UnfoldOther(lines: seq<seq<char>>, i: nat, shape: seq<char> -> Shape)
    requires i < |lines| && !PairsAt(lines, i, shape)
    ensures Pass1From(lines, i, shape) == [lines[i]] + Pass1From(lines, i + 1, shape)
  {
  }

  lemma Pass1Step(done: seq<seq<char>>, lines: seq<seq<char>>, i: nat, shape: seq<char> -> Shape)
    requires i < |lines|
    ensures PairsAt(lines, i, shape) ==>
      done + Pass1From(lines, i, shape) == (done + [JoinPair(shape(lines[i]), shape(lines[i + 1]))]) + Pass1From(lines, i + 2, shape)
    ensures !PairsAt(lines, i, shape) ==>
      done + Pass1From(lines, i, shape) == (done + [lines[i]]) + Pass1From(lines, i + 1, shape)
  {
    if PairsAt(lines, i, shape) {
      Pass1UnfoldPair(lines, i, shape);
    } else {
      Pass1UnfoldOther(lines, i, shape);
    }
  }

  /** One step of pass 2 at a full choice line. */
  lemma Pass2UnfoldChoice(lines: seq<seq<char>>, i: nat, shape: seq<char> -> Shape)
    requires i < |lines| && shape(lines[i]).fullChoice
    ensures Pass2From(lines, i, shape)
         == [Absorbed(lines, i, ContEnd(lines, i + 1, shape), shape)] + Pass2From(lines, ContEnd(lines, i + 1, shape), shape)
  {
  }

  /** One step of pass 2 at any other line. */
  lemma Pass2UnfoldOther(lines: seq<seq<char>>, i: nat, shape: seq<char> -> Shape)
    requires i < |lines| && !shape(lines[i]).fullChoice
    ensures Pass2From(lines, i, shape) == [lines[i]] + Pass2From(lines, i + 1, shape)
  {
  }

  /** The first loop of merge_alternativas (teste2.py:208-224). */
  method JoinLetterLines(lines: seq<seq<char>>, shape: seq<char> -> Shape) returns (result: seq<seq<char>>)
    ensures result == Pass1From(lines, 0, shape)
  {
    result := [];
    var i := 0;
    while i < |lines|
      invariant i <= |lines|
      invariant result + Pass1From(lines, i, shape) == Pass1From(lines, 0, shape)
      decreases |lines| - i
    {
      Pass1Step(result, lines, i, shape);
      var line := shape(lines[i]).text;
      if shape(lines[i]).letterOnly && i + 1 < |lines| {
        var nextLine := shape(lines[i + 1]).text;
        var k := shape(lines[i + 1]);
        if !k.blank && !k.header && !k.letterOnly && !k.fullChoice {
          result := result + [line + " " + nextLine];
          i := i + 2;
          continue;
        }
      }
      result := result + [lines[i]];
      i := i + 1;
    }
  }

  /** The inner loop of the second pass (teste2.py:233-246): line i absorbs its continuation lines. */
  method AbsorbContinuations(lines: seq<seq<char>>, i: nat, shape: seq<char> -> Shape) returns (line: seq<char>, j: nat)
    requires i < |lines|
    ensures j == ContEnd(lines, i + 1, shape)
    ensures line == Absorbed(lines, i, j, shape)
  {
    line := lines[i];
    j := i + 1;
    while j < |lines|
      invariant i + 1 <= j <= ContEnd(lines, i + 1, shape)
      invariant ContEnd(lines, j, shape) == ContEnd(lines, i + 1, shape)
      invariant line == Absorbed(lines, i, j, shape)
      decreases |lines| - j
    {
      var nxt := shape(lines[j]).text;
      var k := shape(lines[j]);
      if k.blank || k.fullChoice || k.letterOnly || k.header || k.areaHeader || k.upperStart {
        break;
      }
      line := RStrip(line) + " " + nxt;
      j := j + 1;
    }
  }

  lemma Pass2Step(done: seq<seq<char>>, lines: seq<seq<char>>, i: nat, shape: seq<char> -> Shape)
    requires i < |lines|
    ensures shape(lines[i]).fullChoice ==>
      var e := ContEnd(lines, i + 1, shape);
      done + Pass2From(lines, i, shape) == (done + [Absorbed(lines, i, e, shape)]) + Pass2From(lines, e, shape)
    ensures !shape(lines[i]).fullChoice ==>
      done + Pass2From(lines, i, shape) == (done + [lines[i]]) + Pass2From(lines, i + 1, shape)
  {
    if shape(lines[i]).fullChoice {
      Pass2UnfoldChoice(lines, i, shape);
    } else {
      Pass2UnfoldOther(lines, i, shape);
    }
  }

  /** The second loop of merge_alternativas (teste2.py:227-251). */
  method AbsorbChoiceLines(lines: seq<seq<char>>, shape: seq<char> -> Shape) returns (merged: seq<seq<char>>)
    ensures merged == Pass2From(lines, 0, shape)
  {
    merged := [];
    var i := 0;
    while i < |lines|
      invariant i <= |lines|
      invariant merged + Pass2From(lines, i, shape) == Pass2From(lines, 0, shape)
      decreases |lines| - i
    {
      if shape(lines[i]).fullChoice {
        var line, j := AbsorbContinuations(lines, i, shape);
        Pass2Step(merged, lines, i, shape);
        merged := merged + [line];
        i := j;
      } else {
        Pass2Step(merged, lines, i, shape);
        merged := merged + [lines[i]];
        i := i + 1;
      }
    }
  }

  /** merge_alternativas. */
  method MergeAlternativas(lines: seq<seq<char>>) returns (merged: seq<seq<char>>)
    ensures merged == MergeSpec(lines)
  {
    var joined := JoinLetterLines(lines, ShapeOf);
    merged := AbsorbChoiceLines(joined, ShapeOf);
  }

  // ---------------------------------------------------------------------------
  // Properties
  // ---------------------------------------------------------------------------

  /** Merging never adds lines. */
  lemma MergeNoLonger(lines: seq<seq<char>>)
    ensures |MergeSpec(lines)| <= |lines|
  {
  }

  /** The non-whitespace text of a list of lines, in order. */
  function Ink(lines: seq<seq<char>>): seq<char> {
    if lines == [] then [] else NonSpace(lines[0]) + Ink(lines[1..])
  }

  lemma InkCons(x: seq<char>, rest: seq<seq<char>>)
    ensures Ink([x] + rest) == NonSpace(x) + Ink(rest)
  {
    assert ([x] + rest)[1..] == rest;
  }

  lemma InkUpTo(lines: seq<seq<char>>, i: nat, j: nat)
    requires i < j <= |lines|
    ensures Ink(lines[i..j]) == Ink(lines[i..j - 1]) + NonSpace(lines[j - 1])
  {
    assert lines[i..j] == lines[i..j - 1] + [lines[j - 1]];
    InkSnoc(lines[i..j - 1], lines[j - 1]);
  }

  lemma InkSplit(lines: seq<seq<char>>, i: nat, e: nat)
    requires i <= e <= |lines|
    ensures Ink(lines[i..]) == Ink(lines[i..e]) + Ink(lines[e..])
  {
    assert lines[i..] == lines[i..e] + lines[e..];
    InkAppend(lines[i..e], lines[e..]);
  }

  lemma InkFrom(lines: seq<seq<char>>, i: nat)
    requires i < |lines|
    ensures Ink(lines[i..]) == NonSpace(lines[i]) + Ink(lines[i + 1..])
  {
    assert lines[i..][1..] == lines[i + 1..];
  }

  /** Joining a bare letter with the next line keeps the non-whitespace text of both. */
  lemma JoinPairInk(shape: seq<char> -> Shape, u: seq<char>, v: seq<char>)
    requires StripsLines(shape)
    ensures NonSpace(JoinPair(shape(u), shape(v))) == NonSpace(u) + NonSpace(v)
  {
    NonSpaceSpaced(shape(u).text, shape(v).text);
  }

  lemma {:induction false} InkAppend(a: seq<seq<char>>, b: seq<seq<char>>)
    ensures Ink(a + b) == Ink(a) + Ink(b)
  {
    if a != [] {
      assert (a + b)[1..] == a[1..] + b;
      InkAppend(a[1..], b);
    } else {
      assert a + b == b;
    }
  }

  lemma {:induction false} Pass1Ink(lines: seq<seq<char>>, i: nat, shape: seq<char> -> Shape)
    requires i <= |lines| && StripsLines(shape)
    ensures Ink(Pass1From(lines, i, shape)) == Ink(lines[i..])
    decreases |lines| - i, 1
  {
    if i < |lines| {
      if PairsAt(lines, i, shape) {
        Pass1InkPair(lines, i, shape);
      } else {
        Pass1InkSingle(lines, i, shape);
      }
    }
  }

  lemma {:induction false} Pass1InkPair(lines: seq<seq<char>>, i: nat, shape: seq<char> -> Shape)
    requires i < |lines| && StripsLines(shape) && PairsAt(lines, i, shape)
    ensures Ink(Pass1From(lines, i, shape)) == Ink(lines[i..])
    decreases |lines| - i, 0
  {
    var x := JoinPair(shape(lines[i]), shape(lines[i + 1]));
    var tail := Pass1From(lines, i + 2, shape);
    var a, b, c := NonSpace(lines[i]), NonSpace(lines[i + 1]), Ink(lines[i + 2..]);
    Pass1UnfoldPair(lines, i, shape);
    InkCons(x, tail);
    assert Ink(Pass1From(lines, i, shape)) == NonSpace(x) + Ink(tail);
    JoinPairInk(shape, lines[i], lines[i + 1]);
    assert NonSpace(x) == a + b;
    Pass1Ink(lines, i + 2, shape);
    assert Ink(tail) == c;
    InkFrom(lines, i);
    InkFrom(lines, i + 1);
    assert Ink(lines[i..]) == a + (b + c);
    AppendAssoc(a, b, c);
  }

  lemma {:induction false} Pass1InkSingle(lines: seq<seq<char>>, i: nat, shape: seq<char> -> Shape)
    requires i < |lines| && StripsLines(shape) && !PairsAt(lines, i, shape)
    ensures Ink(Pass1From(lines, i, shape)) == Ink(lines[i..])
    decreases |lines| - i, 0
  {
    var tail := Pass1From(lines, i + 1, shape);
    Pass1UnfoldOther(lines, i, shape);
    Pass1Ink(lines, i + 1, shape);
    InkCons(lines[i], tail);
    InkFrom(lines, i);
  }

  /** Absorbing a line into another keeps exactly the non-whitespace text of both. */
  lemma AbsorbStepInk(line: seq<char>, next: seq<char>)
    ensures NonSpace(RStrip(line) + " " + next) == NonSpace(line) + NonSpace(next)
  {
    NonSpaceSpaced(RStrip(line), next);
    NonSpaceRStrip(line);
  }

  lemma InkSnoc(a: seq<seq<char>>, x: seq<char>)
    ensures Ink(a + [x]) == Ink(a) + NonSpace(x)
  {
    InkAppend(a, [x]);
    InkCons(x, []);
    assert [x] + [] == [x];
  }

  lemma {:induction false} AbsorbedInk(lines: seq<seq<char>>, i: nat, j: nat, shape: seq<char> -> Shape)
    requires i < j <= |lines| && StripsLines(shape)
    ensures NonSpace(Absorbed(lines, i, j, shape)) == Ink(lines[i..j])
    decreases j, 1
  {
    if j == i + 1 {
      assert lines[i..j] == [lines[i]] + [];
      InkCons(lines[i], []);
    } else {
      AbsorbedInkStep(lines, i, j, shape);
    }
  }

  lemma {:induction false} AbsorbedInkStep(lines: seq<seq<char>>, i: nat, j: nat, shape: seq<char> -> Shape)
    requires i + 1 < j <= |lines| && StripsLines(shape)
    ensures NonSpace(Absorbed(lines, i, j, shape)) == Ink(lines[i..j])
    decreases j, 0
  {
    var prev := Absorbed(lines, i, j - 1, shape);
    var next := shape(lines[j - 1]).text;
    assert Absorbed(lines, i, j, shape) == RStrip(prev) + " " + next;
    AbsorbedInk(lines, i, j - 1, shape);
    AbsorbStepInk(prev, next);
    assert NonSpace(next) == NonSpace(lines[j - 1]);
    InkUpTo(lines, i, j);
  }

  lemma {:induction false} Pass2Ink(lines: seq<seq<char>>, i: nat, shape: seq<char> -> Shape)
    requires i <= |lines| && StripsLines(shape)
    ensures Ink(Pass2From(lines, i, shape)) == Ink(lines[i..])
    decreases |lines| - i, 1
  {
    if i < |lines| {
      if shape(lines[i]).fullChoice {
        Pass2InkChoice(lines, i, shape);
      } else {
        Pass2InkSingle(lines, i, shape);
      }
    }
  }

  lemma {:induction false} Pass2InkChoice(lines: seq<seq<char>>, i: nat, shape: seq<char> -> Shape)
    requires i < |lines| && StripsLines(shape) && shape(lines[i]).fullChoice
    ensures Ink(Pass2From(lines, i, shape)) == Ink(lines[i..])
    decreases |lines| - i, 0
  {
    var e := ContEnd(lines, i + 1, shape);
    var x := Absorbed(lines, i, e, shape);
    var tail := Pass2From(lines, e, shape);
    Pass2UnfoldChoice(lines, i, shape);
    Pass2Ink(lines, e, shape);
    InkCons(x, tail);
    AbsorbedInk(lines, i, e, shape);
    InkSplit(lines, i, e);
  }

  lemma {:induction false} Pass2InkSingle(lines: seq<seq<char>>, i: nat, shape: seq<char> -> Shape)
    requires i < |lines| && StripsLines(shape) && !shape(lines[i]).fullChoice
    ensures Ink(Pass2From(lines, i, shape)) == Ink(lines[i..])
    decreases |lines| - i, 0
  {
    var tail := Pass2From(lines, i + 1, shape);
    Pass2UnfoldOther(lines, i, shape);
    Pass2Ink(lines, i + 1, shape);
    InkCons(lines[i], tail);
    InkFrom(lines, i);
  }

  /** Merging only re-spaces: the non-whitespace text of the lines is the same before and after. */
  lemma MergeKeepsText(lines: seq<seq<char>>)
    ensures Ink(MergeSpec(lines)) == Ink(lines)
  {
    ShapeOfStrips();
    var p1 := Pass1From(lines, 0, ShapeOf);
    Pass1Ink(lines, 0, ShapeOf);
    Pass2Ink(p1, 0, ShapeOf);
    assert lines[0..] == lines;
    assert p1[0..] == p1;
  }

  lemma QuestaoAtHeaderWord(s: seq<char>, p: nat)
    requires QuestaoAt(s, p).Some?
    ensures HeaderWordAt(s, p)
  {
  }

  lemma CiUNotSpace(c: char)
    requires CiEq(c, 'U')
    ensures !IsSpace(c)
  {
  }

  lemma LetterOnlyTail(s: seq<char>, q: nat)
    requires IsLetterOnly(s) && 1 <= q < |s|
    ensures IsSpace(s[q])
  {
    assert s[1..][q - 1] == s[q];
  }

  /** A line holding a question header is not a bare choice letter. */
  lemma HeaderNotLetterOnly(s: seq<char>)
    requires ContainsQuestao(s)
    ensures !IsLetterOnly(s)
  {
    var p :| 0 <= p < |s| && QuestaoAt(s, p).Some?;
    QuestaoAtHeaderWord(s, p);
    HeaderWordNotLetterOnly(s, p);
  }

  lemma HeaderWordNotLetterOnly(s: seq<char>, p: nat)
    requires HeaderWordAt(s, p)
    ensures !IsLetterOnly(s)
  {
    assert CiEq(s[p + 1], "QUES"[1]);
    CiUNotSpace(s[p + 1]);
    if IsLetterOnly(s) {
      LetterOnlyTail(s, p + 1);
    }
  }

  /** A line the classifier sees as a header and not as a bare letter. */
  predicate HeaderLine(shape: seq<char> -> Shape, h: seq<char>) {
    shape(h).header && !shape(h).letterOnly
  }

  // Pass 1 on a suffix is pass 1 from the same index of the whole list.

  lemma Pass1DropPairs(lines: seq<seq<char>>, m: nat, k: nat, shape: seq<char> -> Shape)
    requires m + k < |lines|
    ensures lines[m..][k] == lines[m + k]
    ensures m + k + 1 < |lines| ==> lines[m..][k + 1] == lines[m + k + 1]
    ensures PairsAt(lines[m..], k, shape) == PairsAt(lines, m + k, shape)
  {
  }

  lemma {:induction false} Pass1Drop(lines: seq<seq<char>>, m: nat, k: nat, shape: seq<char> -> Shape)
    requires m + k <= |lines|
    ensures Pass1From(lines[m..], k, shape) == Pass1From(lines, m + k, shape)
    decreases |lines| - m - k, 1
  {
    if m + k < |lines| {
      if PairsAt(lines, m + k, shape) {
        Pass1DropPair(lines, m, k, shape);
      } else {
        Pass1DropOther(lines, m, k, shape);
      }
    }
  }

  lemma {:induction false} Pass1DropPair(lines: seq<seq<char>>, m: nat, k: nat, shape: seq<char> -> Shape)
    requires m + k < |lines| && PairsAt(lines, m + k, shape)
    ensures Pass1From(lines[m..], k, shape) == Pass1From(lines, m + k, shape)
    decreases |lines| - m - k, 0
  {
    var suffix := lines[m..];
    var n := m + k;
    var rest := Pass1From(suffix, k + 2, shape);
    var x := JoinPair(shape(lines[n]), shape(lines[n + 1]));
    assert Pass1From(suffix, k, shape) == [x] + rest by {
      Pass1DropPairs(lines, m, k, shape);
      Pass1UnfoldPair(suffix, k, shape);
    }
    assert rest == Pass1From(lines, n + 2, shape) by {
      Pass1Drop(lines, m, k + 2, shape);
      assert m + (k + 2) == n + 2;
    }
    Pass1UnfoldPair(lines, n, shape);
  }

  lemma {:induction false} Pass1DropOther(lines: seq<seq<char>>, m: nat, k: nat, shape: seq<char> -> Shape)
    requires m + k < |lines| && !PairsAt(lines, m + k, shape)
    ensures Pass1From(lines[m..], k, shape) == Pass1From(lines, m + k, shape)
    decreases |lines| - m - k, 0
  {
    var suffix := lines[m..];
    var n := m + k;
    var rest := Pass1From(suffix, k + 1, shape);
    assert Pass1From(suffix, k, shape) == [lines[n]] + rest by {
      Pass1DropPairs(lines, m, k, shape);
      Pass1UnfoldOther(suffix, k, shape);
    }
    assert rest == Pass1From(lines, n + 1, shape) by {
      Pass1Drop(lines, m, k + 1, shape);
      assert m + (k + 1) == n + 1;
    }
    Pass1UnfoldOther(lines, n, shape);
  }

  // Up to a header line, pass 1 on the whole list is pass 1 on the lines before it.

  lemma Pass1TakePairs(lines: seq<seq<char>>, m: nat, i: nat, shape: seq<char> -> Shape)
    requires i < m < |lines| && HeaderLine(shape, lines[m])
    ensures lines[..m][i] == lines[i]
    ensures i + 1 < m ==> lines[..m][i + 1] == lines[i + 1]
    ensures PairsAt(lines[..m], i, shape) == PairsAt(lines, i, shape)
    ensures PairsAt(lines, i, shape) ==> i + 1 < m
  {
  }

  lemma ConsAssoc(x: seq<char>, b: seq<seq<char>>, c: seq<seq<char>>)
    ensures [x] + (b + c) == ([x] + b) + c
  {
  }

  lemma {:induction false} Pass1Take(lines: seq<seq<char>>, m: nat, i: nat, shape: seq<char> -> Shape)
    requires i <= m < |lines| && HeaderLine(shape, lines[m])
    ensures Pass1From(lines, i, shape) == Pass1From(lines[..m], i, shape) + Pass1From(lines, m, shape)
    decreases m - i, 1
  {
    if i == m {
      assert Pass1From(lines[..m], i, shape) == [];
    } else if PairsAt(lines, i, shape) {
      Pass1TakePair(lines, m, i, shape);
    } else {
      Pass1TakeOther(lines, m, i, shape);
    }
  }

  lemma {:induction false} Pass1TakePair(lines: seq<seq<char>>, m: nat, i: nat, shape: seq<char> -> Shape)
    requires i < m < |lines| && HeaderLine(shape, lines[m]) && PairsAt(lines, i, shape)
    ensures Pass1From(lines, i, shape) == Pass1From(lines[..m], i, shape) + Pass1From(lines, m, shape)
    decreases m - i, 0
  {
    var prefix := lines[..m];
    Pass1TakePairs(lines, m, i, shape);
    Pass1Take(lines, m, i + 2, shape);
    var x := JoinPair(shape(lines[i]), shape(lines[i + 1]));
    Pass1UnfoldPair(prefix, i, shape);
    Pass1UnfoldPair(lines, i, shape);
    assert Pass1From(prefix, i, shape) == [x] + Pass1From(prefix, i + 2, shape);
    ConsAssoc(x, Pass1From(prefix, i + 2, shape), Pass1From(lines, m, shape));
  }

  lemma {:induction false} Pass1TakeOther(lines: seq<seq<char>>, m: nat, i: nat, shape: seq<char> -> Shape)
    requires i < m < |lines| && HeaderLine(shape, lines[m]) && !PairsAt(lines, i, shape)
    ensures Pass1From(lines, i, shape) == Pass1From(lines[..m], i, shape) + Pass1From(lines, m, shape)
    decreases m - i, 0
  {
    var prefix := lines[..m];
    Pass1TakePairs(lines, m, i, shape);
    Pass1Take(lines, m, i + 1, shape);
    Pass1UnfoldOther(prefix, i, shape);
    Pass1UnfoldOther(lines, i, shape);
    assert Pass1From(prefix, i, shape) == [lines[i]] + Pass1From(prefix, i + 1, shape);
    ConsAssoc(lines[i], Pass1From(prefix, i + 1, shape), Pass1From(lines, m, shape));
  }

  /** Pass 1 never joins a header line to the line before it: the output splits there. */
  lemma Pass1Split(lines: seq<seq<char>>, m: nat, shape: seq<char> -> Shape)
    requires m < |lines| && HeaderLine(shape, lines[m])
    ensures Pass1From(lines, 0, shape) == Pass1From(lines[..m], 0, shape) + Pass1From(lines[m..], 0, shape)
    ensures Pass1From(lines[m..], 0, shape) != [] && Pass1From(lines[m..], 0, shape)[0] == lines[m]
  {
    Pass1Take(lines, m, 0, shape);
    Pass1Drop(lines, m, 0, shape);
    assert lines[m..][0] == lines[m];
    Pass1UnfoldOther(lines[m..], 0, shape);
  }

  // Pass 2 on a suffix is pass 2 from the same index of the whole list.

  lemma {:induction false} ContEndDrop(lines: seq<seq<char>>, m: nat, j: nat, shape: seq<char> -> Shape)
    requires m + j <= |lines|
    ensures m + ContEnd(lines[m..], j, shape) == ContEnd(lines, m + j, shape)
    decreases |lines| - m - j
  {
    if m + j < |lines| {
      assert lines[m..][j] == lines[m + j];
      ContEndDrop(lines, m, j + 1, shape);
    }
  }

  lemma {:induction false} AbsorbedDrop(lines: seq<seq<char>>, m: nat, i: nat, j: nat, shape: seq<char> -> Shape)
    requires i < j && m + j <= |lines|
    ensures Absorbed(lines[m..], i, j, shape) == Absorbed(lines, m + i, m + j, shape)
    decreases j
  {
    if j == i + 1 {
      AbsorbedDropFirst(lines, m, i, shape);
    } else {
      AbsorbedDrop(lines, m, i, j - 1, shape);
      AbsorbedDropStep(lines, m, i, j, shape);
    }
  }

  lemma AbsorbedDropFirst(lines: seq<seq<char>>, m: nat, i: nat, shape: seq<char> -> Shape)
    requires m + i < |lines|
    ensures Absorbed(lines[m..], i, i + 1, shape) == Absorbed(lines, m + i, m + i + 1, shape)
  {
    assert lines[m..][i] == lines[m + i];
  }

  lemma AbsorbedDropStep(lines: seq<seq<char>>, m: nat, i: nat, j: nat, shape: seq<char> -> Shape)
    requires i + 1 < j && m + j <= |lines|
    requires Absorbed(lines[m..], i, j - 1, shape) == Absorbed(lines, m + i, m + j - 1, shape)
    ensures Absorbed(lines[m..], i, j, shape) == Absorbed(lines, m + i, m + j, shape)
  {
    var prev := Absorbed(lines[m..], i, j - 1, shape);
    assert lines[m..][j - 1] == lines[m + j - 1];
    var tail := shape(lines[m + j - 1]).text;
    assert Absorbed(lines[m..], i, j, shape) == RStrip(prev) + " " + tail;
    assert Absorbed(lines, m + i, m + j, shape) == RStrip(prev) + " " + tail;
  }

  lemma {:induction false} Pass2Drop(lines: seq<seq<char>>, m: nat, k: nat, shape: seq<char> -> Shape)
    requires m + k <= |lines|
    ensures Pass2From(lines[m..], k, shape) == Pass2From(lines, m + k, shape)
    decreases |lines| - m - k, 1
  {
    if m + k < |lines| {
      if shape(lines[m + k]).fullChoice {
        Pass2DropChoice(lines, m, k, shape);
      } else {
        Pass2DropOther(lines, m, k, shape);
      }
    }
  }

  lemma {:induction false} Pass2DropChoice(lines: seq<seq<char>>, m: nat, k: nat, shape: seq<char> -> Shape)
    requires m + k < |lines| && shape(lines[m + k]).fullChoice
    ensures Pass2From(lines[m..], k, shape) == Pass2From(lines, m + k, shape)
    decreases |lines| - m - k, 0
  {
    var suffix := lines[m..];
    var n := m + k;
    assert suffix[k] == lines[n];
    var e := ContEnd(suffix, k + 1, shape);
    var f := ContEnd(lines, n + 1, shape);
    ContEndDrop(lines, m, k + 1, shape);
    assert m + (k + 1) == n + 1;
    assert f == m + e;
    AbsorbedDrop(lines, m, k, e, shape);
    var x := Absorbed(suffix, k, e, shape);
    assert x == Absorbed(lines, n, f, shape);
    Pass2Drop(lines, m, e, shape);
    Pass2UnfoldChoice(suffix, k, shape);
    Pass2UnfoldChoice(lines, n, shape);
    assert Pass2From(suffix, k, shape) == [x] + Pass2From(suffix, e, shape);
    assert Pass2From(lines, n, shape) == [x] + Pass2From(lines, f, shape);
    assert Pass2From(suffix, e, shape) == Pass2From(lines, f, shape);
  }

  lemma {:induction false} Pass2DropOther(lines: seq<seq<char>>, m: nat, k: nat, shape: seq<char> -> Shape)
    requires m + k < |lines| && !shape(lines[m + k]).fullChoice
    ensures Pass2From(lines[m..], k, shape) == Pass2From(lines, m + k, shape)
    decreases |lines| - m - k, 0
  {
    var suffix := lines[m..];
    var n := m + k;
    assert suffix[k] == lines[n];
    Pass2Drop(lines, m, k + 1, shape);
    assert m + (k + 1) == n + 1;
    var rest := Pass2From(suffix, k + 1, shape);
    assert rest == Pass2From(lines, n + 1, shape);
    Pass2UnfoldOther(suffix, k, shape);
    Pass2UnfoldOther(lines, n, shape);
    assert Pass2From(suffix, k, shape) == [lines[n]] + rest;
    assert Pass2From(lines, n, shape) == [lines[n]] + rest;
  }

  // Up to a header line, pass 2 on the whole list is pass 2 on the lines before it.

  lemma {:induction false} ContEndTake(lines: seq<seq<char>>, m: nat, j: nat, shape: seq<char> -> Shape)
    requires j <= m < |lines| && HeaderLine(shape, lines[m])
    ensures ContEnd(lines, j, shape) == ContEnd(lines[..m], j, shape) <= m
    decreases m - j
  {
    if j < m {
      assert lines[..m][j] == lines[j];
      ContEndTake(lines, m, j + 1, shape);
    }
  }

  lemma {:induction false} AbsorbedTake(lines: seq<seq<char>>, m: nat, i: nat, j: nat, shape: seq<char> -> Shape)
    requires i < j <= m <= |lines|
    ensures Absorbed(lines[..m], i, j, shape) == Absorbed(lines, i, j, shape)
    decreases j
  {
    assert lines[..m][j - 1] == lines[j - 1];
    assert lines[..m][i] == lines[i];
    if j > i + 1 {
      AbsorbedTake(lines, m, i, j - 1, shape);
    }
  }

  lemma {:induction false} Pass2Take(lines: seq<seq<char>>, m: nat, i: nat, shape: seq<char> -> Shape)
    requires i <= m < |lines| && HeaderLine(shape, lines[m])
    ensures Pass2From(lines, i, shape) == Pass2From(lines[..m], i, shape) + Pass2From(lines, m, shape)
    decreases m - i, 1
  {
    if i == m {
      assert Pass2From(lines[..m], i, shape) == [];
    } else if shape(lines[i]).fullChoice {
      Pass2TakeChoice(lines, m, i, shape);
    } else {
      Pass2TakeOther(lines, m, i, shape);
    }
  }

  lemma {:induction false} Pass2TakeChoice(lines: seq<seq<char>>, m: nat, i: nat, shape: seq<char> -> Shape)
    requires i < m < |lines| && HeaderLine(shape, lines[m]) && shape(lines[i]).fullChoice
    ensures Pass2From(lines, i, shape) == Pass2From(lines[..m], i, shape) + Pass2From(lines, m, shape)
    decreases m - i, 0
  {
    var prefix := lines[..m];
    assert prefix[i] == lines[i];
    ContEndTake(lines, m, i + 1, shape);
    var e := ContEnd(lines, i + 1, shape);
    AbsorbedTake(lines, m, i, e, shape);
    var x := Absorbed(lines, i, e, shape);
    Pass2Take(lines, m, e, shape);
    Pass2UnfoldChoice(prefix, i, shape);
    Pass2UnfoldChoice(lines, i, shape);
    assert Pass2From(prefix, i, shape) == [x] + Pass2From(prefix, e, shape);
    ConsAssoc(x, Pass2From(prefix, e, shape), Pass2From(lines, m, shape));
  }

  lemma {:induction false} Pass2TakeOther(lines: seq<seq<char>>, m: nat, i: nat, shape: seq<char> -> Shape)
    requires i < m < |lines| && HeaderLine(shape, lines[m]) && !shape(lines[i]).fullChoice
    ensures Pass2From(lines, i, shape) == Pass2From(lines[..m], i, shape) + Pass2From(lines, m, shape)
    decreases m - i, 0
  {
    var prefix := lines[..m];
    assert prefix[i] == lines[i];
    Pass2Take(lines, m, i + 1, shape);
    Pass2UnfoldOther(prefix, i, shape);
    Pass2UnfoldOther(lines, i, shape);
    assert Pass2From(prefix, i, shape) == [lines[i]] + Pass2From(prefix, i + 1, shape);
    ConsAssoc(lines[i], Pass2From(prefix, i + 1, shape), Pass2From(lines, m, shape));
  }

  /** Pass 2 never lets a choice absorb a header line: the output splits there. */
  lemma Pass2Split(lines: seq<seq<char>>, m: nat, shape: seq<char> -> Shape)
    requires m < |lines| && HeaderLine(shape, lines[m])
    ensures Pass2From(lines, 0, shape) == Pass2From(lines[..m], 0, shape) + Pass2From(lines[m..], 0, shape)
  {
    Pass2Take(lines, m, 0, shape);
    Pass2Drop(lines, m, 0, shape);
  }

  lemma SplitAt(a: seq<seq<char>>, b: seq<seq<char>>)
    ensures (a + b)[..|a|] == a && (a + b)[|a|..] == b
  {
  }

  /** Both passes together split at a header line, for any view that keeps it apart. */
  lemma MergeWithSplit(lines: seq<seq<char>>, m: nat, shape: seq<char> -> Shape)
    requires m < |lines| && HeaderLine(shape, lines[m])
    ensures MergeWith(lines, shape) == MergeWith(lines[..m], shape) + MergeWith(lines[m..], shape)
  {
    var before := Pass1From(lines[..m], 0, shape);
    var after := Pass1From(lines[m..], 0, shape);
    Pass1Split(lines, m, shape);
    var p1 := before + after;
    SplitAt(before, after);
    assert p1[|before|] == lines[m];
    Pass2Split(p1, |before|, shape);
  }

  /**
   * A header line is never absorbed into a preceding line by either pass:
   * merging the whole list is merging the lines before the header and the
   * lines from the header on separately.
   */
  lemma MergeSplitsAtHeaders(lines: seq<seq<char>>, m: nat)
    requires m < |lines| && ContainsQuestao(Strip(lines[m]))
    ensures MergeSpec(lines) == MergeSpec(lines[..m]) + MergeSpec(lines[m..])
  {
    HeaderNotLetterOnly(Strip(lines[m]));
    assert HeaderLine(ShapeOf, lines[m]);
    MergeWithSplit(lines, m, ShapeOf);
  }
}
