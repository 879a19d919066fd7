/**
 * split_into_questions (teste2.py:259-290): the cleaned lines are cut into
 * blocks, one per question header, and the blocks are sorted by question
 * number. Lines before the first header belong to no block.
 */
module Segmenter {
  import opened Base
  import opened Patterns

  /** A question number and the lines that follow its header. */
  datatype Block = Block(number: nat, lines: seq<seq<char>>)

  /** `stripped.startswith(("QUESTÃO", "QUESTAO", "QUESTÃ"))`: case-sensitive. */
  predicate StartsWithHeaderWord(s: seq<char>) {
    LitAt(s, 0, "QUESTÃO") || LitAt(s, 0, "QUESTAO") || LitAt(s, 0, "QUESTÃ")
  }

  /**
   * The question number a line announces, if any: the whole stripped line is
   * a header, or it begins with a header followed by other text and starts
   * with the header word in capitals.
   */
  function HeaderNumber(line: seq<char>): (r: Option<nat>)
    ensures r.Some? ==> HeaderWordAt(Strip(line), 0)
  {
    var s := Strip(line);
    var m := QuestaoMatch(s);
    if m.Some? then m
    else if QuestaoAt(s, 0).Some? && StartsWithHeaderWord(s) then QuestaoAt(s, 0)
    else None
  }

  lemma DigitRunBound(s: seq<char>, j: nat, k: nat)
    requires j <= k <= |s| && 1 <= k - j <= 3
    requires forall t :: j <= t < k ==> IsDigit(s[t])
    ensures RunValue(s, j, k) < 1000
  {
    assert Pow10(1) == 10 && Pow10(2) == 100 && Pow10(3) == 1000;
  }

  /** A header carries at most three digits, so every question number is below 1000. */
  lemma HeaderNumberBound(line: seq<char>)
    ensures HeaderNumber(line).Some? ==> HeaderNumber(line).value < 1000
  {
    var s := Strip(line);
    if QuestaoMatch(s).Some? {
      var j := SpanEnd(s, 7, IsSpace);
      DigitRunBound(s, j, SpanEnd(s, j, IsDigit));
    } else if QuestaoAt(s, 0).Some? {
      var j := SpanEnd(s, 7, IsSpace);
      DigitRunBound(s, j, SpanEnd(s, j, IsDigit));
    }
  }

  /**
   * A header word followed by a run of four or more digits announces no
   * question: neither pattern accepts it, so the line is ordinary text and, under
   * an open question, joins that question's lines.
   */
  lemma LongNumberIsText(line: seq<char>, st: Scan)
    requires var s := Strip(line);
      HeaderWordAt(s, 0) && SpanEnd(s, SpanEnd(s, 7, IsSpace), IsDigit) - SpanEnd(s, 7, IsSpace) >= 4
    ensures HeaderNumber(line) == None
    ensures st.current.Some? ==> Step(st, line, HeaderNumber) == Scan(st.done, st.current, st.body + [line])
  {
  }

  /** "QUESTÃO 1234" is not a header. */
  lemma FourDigitHeaderExample()
    ensures HeaderNumber("QUESTÃO 1234") == None
  {
    var s := "QUESTÃO 1234";
    assert !IsSpace(s[0]) && !IsSpace(s[|s| - 1]);
    assert LStrip(s) == s && RStrip(s) == s;
    assert SpanEnd(s, 8, IsSpace) == 8;
    assert SpanEnd(s, 7, IsSpace) == 8;
    assert SpanEnd(s, 12, IsDigit) == 12;
    assert SpanEnd(s, 11, IsDigit) == 12;
    assert SpanEnd(s, 10, IsDigit) == 12;
    assert SpanEnd(s, 9, IsDigit) == 12;
    assert SpanEnd(s, 8, IsDigit) == 12;
    LongNumberIsText(s, Scan([], None, []));
  }

  // ---------------------------------------------------------------------------
  // The scan over the lines
  // ---------------------------------------------------------------------------

  /** The loop's variables: the finished blocks, the open question and its lines. */
  datatype Scan = Scan(done: seq<Block>, current: Option<nat>, body: seq<seq<char>>)

  /** One turn of the loop; hd says which lines are headers. */
  function Step(st: Scan, line: seq<char>, hd: seq<char> -> Option<nat>): Scan {
    match hd(line)
    case Some(n) =>
      var done := if st.current.Some? then st.done + [Block(st.current.value, st.body)] else st.done;
      Scan(done, Some(n), [])
    case None =>
      if st.current.Some? then Scan(st.done, st.current, st.body + [line]) else st
  }

  /** The loop's variables after the given lines. */
  function ScanLines(lines: seq<seq<char>>, hd: seq<char> -> Option<nat>): Scan {
    if lines == [] then Scan([], None, [])
    else Step(ScanLines(lines[..|lines| - 1], hd), lines[|lines| - 1], hd)
  }

  /** After the loop: the open question is kept only when it has lines. */
  function Close(st: Scan): seq<Block> {
    if st.current.Some? && st.body != [] then st.done + [Block(st.current.value, st.body)] else st.done
  }

  /** The blocks in the order of the input, before sorting. */
  function SegmentsWith(lines: seq<seq<char>>, hd: seq<char> -> Option<nat>): seq<Block> {
    Close(ScanLines(lines, hd))
  }

  function Segments(lines: seq<seq<char>>): seq<Block> {
    SegmentsWith(lines, HeaderNumber)
  }

  // ---------------------------------------------------------------------------
  // The stable sort on the question number
  // ---------------------------------------------------------------------------

  /** Insert b before the first block whose number is not smaller. */
  function InsertByNumber(b: Block, s: seq<Block>): (r: seq<Block>)
    ensures |r| == |s| + 1
  {
    if s == [] || b.number <= s[0].number then [b] + s
    else [s[0]] + InsertByNumber(b, s[1..])
  }

  /** `questions.sort(key=lambda x: x[0])`: Python's sort is stable. */
  function SortByNumber(s: seq<Block>): (r: seq<Block>)
    ensures |r| == |s|
  {
    if s == [] then [] else InsertByNumber(s[0], SortByNumber(s[1..]))
  }

  /** What split_into_questions returns. */
  function SplitSpec(lines: seq<seq<char>>): seq<Block> {
    SortByNumber(Segments(lines))
  }

  lemma ScanSnoc(lines: seq<seq<char>>, i: nat, hd: seq<char> -> Option<nat>)
    requires i < |lines|
    ensures ScanLines(lines[..i + 1], hd) == Step(ScanLines(lines[..i], hd), lines[i], hd)
  {
    assert lines[..i + 1][..i] == lines[..i];
  }

  /** split_into_questions. */
  method SplitIntoQuestions(lines: seq<seq<char>>) returns (questions: seq<Block>)
    ensures questions == SplitSpec(lines)
  {
    questions := [];
    var currentNum: Option<nat> := None;
    var currentLines: seq<seq<char>> := [];
    for i := 0 to |lines|
      invariant Scan(questions, currentNum, currentLines) == ScanLines(lines[..i], HeaderNumber)
    {
      ScanSnoc(lines, i, HeaderNumber);
      var m := HeaderNumber(lines[i]);
      if m.Some? {
        if currentNum.Some? {
          questions := questions + [Block(currentNum.value, currentLines)];
        }
        currentNum := m;
        currentLines := [];
      } else if currentNum.Some? {
        currentLines := currentLines + [lines[i]];
      }
    }
    assert lines[..|lines|] == lines;
    if currentNum.Some? && currentLines != [] {
      questions := questions + [Block(currentNum.value, currentLines)];
    }
    questions := SortByNumber(questions);
  }

  // ---------------------------------------------------------------------------
  // The sort orders the blocks, keeps them all, and keeps equal numbers in order
  // ---------------------------------------------------------------------------

  predicate SortedByNumber(s: seq<Block>) {
    forall i, j :: 0 <= i < j < |s| ==> s[i].number <= s[j].number
  }

  lemma SortedTail(s: seq<Block>)
    requires s != [] && SortedByNumber(s)
    ensures SortedByNumber(s[1..])
  {
    forall i, j | 0 <= i < j < |s[1..]| ensures s[1..][i].number <= s[1..][j].number {
      assert s[1..][i] == s[i + 1] && s[1..][j] == s[j + 1];
    }
  }

  lemma SortedCons(h: Block, t: seq<Block>)
    requires SortedByNumber(t) && (t != [] ==> h.number <= t[0].number)
    ensures SortedByNumber([h] + t)
  {
    forall i, j | 0 <= i < j < |[h] + t| ensures ([h] + t)[i].number <= ([h] + t)[j].number {
      assert ([h] + t)[j] == t[j - 1];
      if i > 0 {
        assert ([h] + t)[i] == t[i - 1];
      } else if j > 1 {
        assert t[0].number <= t[j - 1].number;
      }
    }
  }

  lemma {:induction false} InsertHead(b: Block, s: seq<Block>)
    ensures var r := InsertByNumber(b, s); r[0] == b || (s != [] && r[0] == s[0])
    decreases |s|
  {
  }

  lemma {:induction false} InsertSorted(b: Block, s: seq<Block>)
    requires SortedByNumber(s)
    ensures SortedByNumber(InsertByNumber(b, s))
    decreases |s|
  {
    if s == [] || b.number <= s[0].number {
      SortedCons(b, s);
    } else {
      SortedTail(s);
      InsertSorted(b, s[1..]);
      var t := InsertByNumber(b, s[1..]);
      InsertHead(b, s[1..]);
      if s[1..] != [] {
        assert s[1..][0] == s[1];
      }
      SortedCons(s[0], t);
    }
  }

  /** The blocks come out in nondecreasing order of their numbers. */
  lemma {:induction false} SortSorted(s: seq<Block>)
    ensures SortedByNumber(SortByNumber(s))
    decreases |s|
  {
    if s != [] {
      SortSorted(s[1..]);
      InsertSorted(s[0], SortByNumber(s[1..]));
    }
  }

  lemma {:induction false} InsertMultiset(b: Block, s: seq<Block>)
    ensures multiset(InsertByNumber(b, s)) == multiset{b} + multiset(s)
    decreases |s|
  {
    if s != [] && b.number > s[0].number {
      InsertMultiset(b, s[1..]);
      assert s == [s[0]] + s[1..];
    }
  }

  /** No block is lost or duplicated by the sort. */
  lemma {:induction false} SortPermutes(s: seq<Block>)
    ensures multiset(SortByNumber(s)) == multiset(s)
    decreases |s|
  {
    if s != [] {
      SortPermutes(s[1..]);
      InsertMultiset(s[0], SortByNumber(s[1..]));
      assert s == [s[0]] + s[1..];
    }
  }

  predicate HasNumber(n: nat, b: Block) { b.number == n }

  /** The blocks that carry number n, in order. */
  function WithNumber(s: seq<Block>, n: nat): seq<Block> {
    Filter(s, (c: Block) => HasNumber(n, c))
  }

  lemma WithNumberCons(x: Block, t: seq<Block>, n: nat)
    ensures WithNumber([x] + t, n) == (if x.number == n then [x] else []) + WithNumber(t, n)
  {
    FilterCons(x, t, (c: Block) => HasNumber(n, c));
  }

  lemma {:induction false} InsertStable(b: Block, s: seq<Block>, n: nat)
    ensures WithNumber(InsertByNumber(b, s), n) == (if b.number == n then [b] else []) + WithNumber(s, n)
    decreases |s|
  {
    if s == [] || b.number <= s[0].number {
      WithNumberCons(b, s, n);
    } else {
      var rest := InsertByNumber(b, s[1..]);
      InsertStable(b, s[1..], n);
      WithNumberCons(s[0], rest, n);
      WithNumberCons(s[0], s[1..], n);
      assert s == [s[0]] + s[1..];
      var mine := if b.number == n then [b] else [];
      var head := if s[0].number == n then [s[0]] else [];
      assert WithNumber(InsertByNumber(b, s), n) == head + (mine + WithNumber(s[1..], n));
      assert WithNumber(s, n) == head + WithNumber(s[1..], n);
      assert head == [] || mine == [];
    }
  }

  /**
   * The sort is stable: the blocks that carry any one number come out in the
   * order they went in.
   */
  lemma {:induction false} SortStable(s: seq<Block>, n: nat)
    ensures WithNumber(SortByNumber(s), n) == WithNumber(s, n)
    decreases |s|
  {
    if s != [] {
      SortStable(s[1..], n);
      InsertStable(s[0], SortByNumber(s[1..]), n);
      WithNumberCons(s[0], s[1..], n);
      assert s == [s[0]] + s[1..];
    }
  }

  // ---------------------------------------------------------------------------
  // Every header opens one block, and every other line after the first header
  // lands in the block of the header above it
  // ---------------------------------------------------------------------------

  /** The numbers of the header lines, in order. */
  function Headers(lines: seq<seq<char>>, hd: seq<char> -> Option<nat>): seq<nat> {
    if lines == [] then []
    else
      var h := hd(lines[|lines| - 1]);
      Headers(lines[..|lines| - 1], hd) + (if h.Some? then [h.value] else [])
  }

  /** The lines that are not headers and come after some header, in order. */
  function Following(lines: seq<seq<char>>, hd: seq<char> -> Option<nat>): seq<seq<char>> {
    if lines == [] then []
    else
      var init, last := lines[..|lines| - 1], lines[|lines| - 1];
      Following(init, hd) + (if hd(last).None? && Headers(init, hd) != [] then [last] else [])
  }

  function Numbers(bs: seq<Block>): seq<nat> {
    if bs == [] then [] else Numbers(bs[..|bs| - 1]) + [bs[|bs| - 1].number]
  }

  /** The lines of all blocks, block after block. */
  function BodyLines(bs: seq<Block>): seq<seq<char>> {
    if bs == [] then [] else BodyLines(bs[..|bs| - 1]) + bs[|bs| - 1].lines
  }

  lemma SnocBlock(bs: seq<Block>, b: Block)
    ensures Numbers(bs + [b]) == Numbers(bs) + [b.number]
    ensures BodyLines(bs + [b]) == BodyLines(bs) + b.lines
  {
    assert (bs + [b])[..|bs|] == bs;
  }

  /** What the loop keeps: the blocks done and the open one account for every header and every following line. */
  predicate ScanAccounts(lines: seq<seq<char>>, st: Scan, hd: seq<char> -> Option<nat>) {
    && (st.current.Some? <==> Headers(lines, hd) != [])
    && Numbers(st.done) + (if st.current.Some? then [st.current.value] else []) == Headers(lines, hd)
    && BodyLines(st.done) + st.body == Following(lines, hd)
  }

  lemma ScanStepHeader(lines: seq<seq<char>>, hd: seq<char> -> Option<nat>)
    requires lines != [] && hd(lines[|lines| - 1]).Some?
    requires ScanAccounts(lines[..|lines| - 1], ScanLines(lines[..|lines| - 1], hd), hd)
    ensures ScanAccounts(lines, ScanLines(lines, hd), hd)
  {
    var init, last := lines[..|lines| - 1], lines[|lines| - 1];
    var st := ScanLines(init, hd);
    var n := hd(last).value;
    assert Headers(lines, hd) == Headers(init, hd) + [n];
    assert Following(lines, hd) == Following(init, hd);
    var st' := ScanLines(lines, hd);
    assert st'.current == Some(n) && st'.body == [];
    if st.current.Some? {
      var b := Block(st.current.value, st.body);
      assert st'.done == st.done + [b];
      SnocBlock(st.done, b);
      assert BodyLines(st'.done) + st'.body == BodyLines(st.done) + st.body;
    } else {
      assert st'.done == st.done;
      assert st.body == [] && Following(init, hd) == [] by { NoFollowingWithoutHeader(init, hd); }
    }
  }

  lemma ScanStepOther(lines: seq<seq<char>>, hd: seq<char> -> Option<nat>)
    requires lines != [] && hd(lines[|lines| - 1]).None?
    requires ScanAccounts(lines[..|lines| - 1], ScanLines(lines[..|lines| - 1], hd), hd)
    ensures ScanAccounts(lines, ScanLines(lines, hd), hd)
  {
    var init, last := lines[..|lines| - 1], lines[|lines| - 1];
    var st := ScanLines(init, hd);
    assert Headers(lines, hd) == Headers(init, hd);
    if st.current.Some? {
      assert Following(lines, hd) == Following(init, hd) + [last];
      assert ScanLines(lines, hd) == Scan(st.done, st.current, st.body + [last]);
      AppendAssoc(BodyLines(st.done), st.body, [last]);
    } else {
      assert Following(lines, hd) == Following(init, hd);
      assert ScanLines(lines, hd) == st;
    }
  }

  lemma {:induction false} ScanInvariant(lines: seq<seq<char>>, hd: seq<char> -> Option<nat>)
    ensures ScanAccounts(lines, ScanLines(lines, hd), hd)
    decreases |lines|
  {
    if lines != [] {
      ScanInvariant(lines[..|lines| - 1], hd);
      if hd(lines[|lines| - 1]).Some? {
        ScanStepHeader(lines, hd);
      } else {
        ScanStepOther(lines, hd);
      }
    }
  }

  /**
   * Each header opens exactly one block, in order; only the last header's
   * block can be missing, and only when no line follows that header.
   */
  lemma SegmentsFollowHeaders(lines: seq<seq<char>>, hd: seq<char> -> Option<nat>)
    ensures var hs := Headers(lines, hd);
      Numbers(SegmentsWith(lines, hd)) == hs
      || (hs != [] && Numbers(SegmentsWith(lines, hd)) == hs[..|hs| - 1] && ScanLines(lines, hd).body == [])
  {
    ScanInvariant(lines, hd);
    var st := ScanLines(lines, hd);
    if st.current.Some? {
      if st.body != [] {
        SnocBlock(st.done, Block(st.current.value, st.body));
      } else {
        var hs := Headers(lines, hd);
        assert hs[..|hs| - 1] == Numbers(st.done);
      }
    }
  }

  lemma {:induction false} NoFollowingWithoutHeader(lines: seq<seq<char>>, hd: seq<char> -> Option<nat>)
    requires Headers(lines, hd) == []
    ensures Following(lines, hd) == []
    decreases |lines|
  {
    if lines != [] {
      var init := lines[..|lines| - 1];
      assert Headers(init, hd) == [];
      NoFollowingWithoutHeader(init, hd);
    }
  }

  /** No line is lost or invented: the blocks hold exactly the non-header lines after the first header. */
  lemma SegmentsKeepLines(lines: seq<seq<char>>, hd: seq<char> -> Option<nat>)
    ensures BodyLines(SegmentsWith(lines, hd)) == Following(lines, hd)
  {
    ScanInvariant(lines, hd);
    var st := ScanLines(lines, hd);
    if st.current.Some? && st.body != [] {
      SnocBlock(st.done, Block(st.current.value, st.body));
    } else if st.current.None? {
      NoFollowingWithoutHeader(lines, hd);
    }
  }

  // ---------------------------------------------------------------------------
  // Block by block: each block holds the lines from its header to the next one
  // ---------------------------------------------------------------------------

  /** The indices of the header lines, in increasing order. */
  function HeaderPositions(lines: seq<seq<char>>, hd: seq<char> -> Option<nat>): (ps: seq<nat>)
    ensures forall k :: 0 <= k < |ps| ==> ps[k] < |lines| && hd(lines[ps[k]]).Some?
    ensures forall k :: 0 <= k < |ps| - 1 ==> ps[k] < ps[k + 1]
  {
    if lines == [] then []
    else
      var init := lines[..|lines| - 1];
      assert forall i :: 0 <= i < |init| ==> init[i] == lines[i];
      HeaderPositions(init, hd) + (if hd(lines[|lines| - 1]).Some? then [|lines| - 1] else [])
  }

  /** Where the k-th header's lines end: at the next header, or at the end of the text. */
  function NextHeader(ps: seq<nat>, k: nat, total: nat): nat {
    if k + 1 < |ps| then ps[k + 1] else total
  }

  /** The block the k-th header opens: its number and the lines up to the next header. */
  function HeaderBlock(lines: seq<seq<char>>, hd: seq<char> -> Option<nat>, k: nat): Block
    requires k < |HeaderPositions(lines, hd)|
  {
    var ps := HeaderPositions(lines, hd);
    Block(hd(lines[ps[k]]).value, lines[ps[k] + 1..NextHeader(ps, k, |lines|)])
  }

  /** Every header's position is listed. */
  lemma {:induction false} HeaderPositionsComplete(lines: seq<seq<char>>, hd: seq<char> -> Option<nat>)
    ensures forall i :: 0 <= i < |lines| && hd(lines[i]).Some? ==> i in HeaderPositions(lines, hd)
    decreases |lines|
  {
    if lines != [] {
      var init := lines[..|lines| - 1];
      HeaderPositionsComplete(init, hd);
      forall i | 0 <= i < |init| && hd(lines[i]).Some?
        ensures i in HeaderPositions(lines, hd)
      {
        assert init[i] == lines[i];
      }
    }
  }

  /** No header lies strictly between a header and the next one (or the end). */
  lemma NoHeaderInsideBlock(lines: seq<seq<char>>, hd: seq<char> -> Option<nat>)
    ensures var ps := HeaderPositions(lines, hd);
      forall k, i :: 0 <= k < |ps| && ps[k] < i < NextHeader(ps, k, |lines|) ==> hd(lines[i]).None?
  {
    var ps := HeaderPositions(lines, hd);
    forall k, i | 0 <= k < |ps| && ps[k] < i < NextHeader(ps, k, |lines|)
      ensures hd(lines[i]).None?
    {
      NoHeaderBetween(lines, hd, k, i);
    }
  }

  /** The pointwise form of NoHeaderInsideBlock, by induction on the text. */
  lemma {:induction false} NoHeaderBetween(lines: seq<seq<char>>, hd: seq<char> -> Option<nat>, k: nat, i: nat)
    requires var ps := HeaderPositions(lines, hd); k < |ps| && ps[k] < i < NextHeader(ps, k, |lines|)
    ensures i < |lines| && hd(lines[i]).None?
    decreases |lines|
  {
    var init := lines[..|lines| - 1];
    var n := |lines| - 1;
    var ps0, ps := HeaderPositions(init, hd), HeaderPositions(lines, hd);
    assert ps == ps0 + (if hd(lines[n]).Some? then [n] else []);
    if i < n {
      assert k < |ps0| && ps[k] == ps0[k];
      assert i < NextHeader(ps0, k, |init|);
      NoHeaderBetween(init, hd, k, i);
      assert init[i] == lines[i];
    } else {
      assert i == n;
    }
  }

  /** A block that closed before the last line is the same in the text and in the text without that line. */
  lemma HeaderBlockKept(lines: seq<seq<char>>, hd: seq<char> -> Option<nat>, k: nat)
    requires lines != [] && k + 1 < |HeaderPositions(lines[..|lines| - 1], hd)|
    ensures k + 1 < |HeaderPositions(lines, hd)|
    ensures HeaderBlock(lines, hd, k) == HeaderBlock(lines[..|lines| - 1], hd, k)
  {
    var init := lines[..|lines| - 1];
    var ps0, ps := HeaderPositions(init, hd), HeaderPositions(lines, hd);
    assert ps[..|ps0|] == ps0;
    assert ps[k] == ps0[k] && ps[k + 1] == ps0[k + 1];
    assert lines[ps[k]] == init[ps[k]];
    SliceInPrefix(lines, |lines| - 1, ps[k] + 1, ps[k + 1]);
  }

  /** A header as the last line closes the open block: the lines after the previous header. */
  lemma HeaderBlockClosed(lines: seq<seq<char>>, hd: seq<char> -> Option<nat>)
    requires lines != [] && hd(lines[|lines| - 1]).Some?
    requires HeaderPositions(lines[..|lines| - 1], hd) != []
    ensures var ps0 := HeaderPositions(lines[..|lines| - 1], hd); var last := ps0[|ps0| - 1];
      |ps0| < |HeaderPositions(lines, hd)|
      && HeaderBlock(lines, hd, |ps0| - 1) == Block(hd(lines[last]).value, lines[..|lines| - 1][last + 1..])
  {
    var init, n := lines[..|lines| - 1], |lines| - 1;
    var ps0, ps := HeaderPositions(init, hd), HeaderPositions(lines, hd);
    assert ps == ps0 + [n];
    var last := ps0[|ps0| - 1];
    assert ps[|ps0| - 1] == last && NextHeader(ps, |ps0| - 1, |lines|) == n;
    assert lines[last + 1..n] == init[last + 1..];
  }

  /** Without a new header, the last line extends the last block and leaves the earlier ones. */
  lemma HeaderBlockExtended(lines: seq<seq<char>>, hd: seq<char> -> Option<nat>, k: nat)
    requires lines != [] && hd(lines[|lines| - 1]).None?
    requires k + 1 < |HeaderPositions(lines[..|lines| - 1], hd)|
    ensures HeaderBlock(lines, hd, k) == HeaderBlock(lines[..|lines| - 1], hd, k)
  {
    HeaderBlockKept(lines, hd, k);
  }

  /** Every finished block holds the lines from its header to the next header. */
  predicate DoneBlocks(lines: seq<seq<char>>, done: seq<Block>, hd: seq<char> -> Option<nat>) {
    |done| <= |HeaderPositions(lines, hd)|
    && forall k :: 0 <= k < |done| ==> done[k] == HeaderBlock(lines, hd, k)
  }

  /**
   * What the loop keeps, block by block: the finished blocks are those of all
   * headers but the last, and the open question's lines are those after the
   * last header.
   */
  predicate ScanBlocks(lines: seq<seq<char>>, st: Scan, hd: seq<char> -> Option<nat>) {
    var ps := HeaderPositions(lines, hd);
    if ps == [] then st == Scan([], None, [])
    else
      && |st.done| == |ps| - 1
      && st.current == hd(lines[ps[|ps| - 1]])
      && st.body == lines[ps[|ps| - 1] + 1..]
      && DoneBlocks(lines, st.done, hd)
  }

  /** Blocks closed before the last line stay as they were. */
  lemma DoneKept(lines: seq<seq<char>>, done: seq<Block>, hd: seq<char> -> Option<nat>)
    requires lines != [] && |done| < |HeaderPositions(lines[..|lines| - 1], hd)|
    requires DoneBlocks(lines[..|lines| - 1], done, hd)
    ensures DoneBlocks(lines, done, hd)
  {
    if done != [] {
      HeaderBlockKept(lines, hd, |done| - 1);
    }
    forall k | 0 <= k < |done|
      ensures done[k] == HeaderBlock(lines, hd, k)
    {
      HeaderBlockKept(lines, hd, k);
    }
  }

  /** Appending the next header's block keeps DoneBlocks. */
  lemma DoneSnoc(lines: seq<seq<char>>, done: seq<Block>, b: Block, hd: seq<char> -> Option<nat>)
    requires DoneBlocks(lines, done, hd) && |done| < |HeaderPositions(lines, hd)|
    requires b == HeaderBlock(lines, hd, |done|)
    ensures DoneBlocks(lines, done + [b], hd)
  {
  }

  /** The header positions of a text are those without its last line, then that line if it is a header. */
  lemma PositionsSnoc(lines: seq<seq<char>>, hd: seq<char> -> Option<nat>)
    requires lines != []
    ensures HeaderPositions(lines, hd)
      == HeaderPositions(lines[..|lines| - 1], hd) + (if hd(lines[|lines| - 1]).Some? then [|lines| - 1] else [])
  {
  }

  /** A header as the next line: the open question's block is finished and the header's opens. */
  lemma BlocksStepHeader(lines: seq<seq<char>>, st: Scan, hd: seq<char> -> Option<nat>)
    requires lines != [] && hd(lines[|lines| - 1]).Some?
    requires ScanBlocks(lines[..|lines| - 1], st, hd)
    ensures ScanBlocks(lines, Step(st, lines[|lines| - 1], hd), hd)
  {
    var init, n := lines[..|lines| - 1], |lines| - 1;
    var st' := Step(st, lines[n], hd);
    var ps0 := HeaderPositions(init, hd);
    PositionsSnoc(lines, hd);
    if ps0 != [] {
      var last := ps0[|ps0| - 1];
      assert hd(init[last]).Some? && init[last] == lines[last];
      var b := Block(st.current.value, st.body);
      assert st' == Scan(st.done + [b], hd(lines[n]), []);
      HeaderBlockClosed(lines, hd);
      DoneKept(lines, st.done, hd);
      DoneSnoc(lines, st.done, b, hd);
    }
  }

  /** Any other line: it joins the open question's lines, or is dropped when none is open. */
  lemma BlocksStepOther(lines: seq<seq<char>>, st: Scan, hd: seq<char> -> Option<nat>)
    requires lines != [] && hd(lines[|lines| - 1]).None?
    requires ScanBlocks(lines[..|lines| - 1], st, hd)
    ensures ScanBlocks(lines, Step(st, lines[|lines| - 1], hd), hd)
  {
    var init, n := lines[..|lines| - 1], |lines| - 1;
    var st' := Step(st, lines[n], hd);
    var ps := HeaderPositions(init, hd);
    PositionsSnoc(lines, hd);
    if ps != [] {
      var last := ps[|ps| - 1];
      assert hd(init[last]).Some? && init[last] == lines[last];
      assert st' == Scan(st.done, st.current, st.body + [lines[n]]);
      SuffixSnoc(lines, last + 1);
      DoneKept(lines, st.done, hd);
    }
  }

  lemma {:induction false} BlocksInvariant(lines: seq<seq<char>>, hd: seq<char> -> Option<nat>)
    ensures ScanBlocks(lines, ScanLines(lines, hd), hd)
    decreases |lines|
  {
    if lines != [] {
      BlocksInvariant(lines[..|lines| - 1], hd);
      if hd(lines[|lines| - 1]).Some? {
        BlocksStepHeader(lines, ScanLines(lines[..|lines| - 1], hd), hd);
      } else {
        BlocksStepOther(lines, ScanLines(lines[..|lines| - 1], hd), hd);
      }
    }
  }

  /**
   * The k-th block is the k-th header's number with the lines from that header
   * to the next header, or to the end for the last one; every header opens a
   * block except a last one that no line follows.
   */
  lemma SegmentsByHeaders(lines: seq<seq<char>>, hd: seq<char> -> Option<nat>)
    ensures var ps, segs := HeaderPositions(lines, hd), SegmentsWith(lines, hd);
      && (ps == [] ==> segs == [])
      && (ps != [] ==> |ps| - 1 <= |segs| <= |ps| && (|segs| == |ps| <==> ps[|ps| - 1] + 1 < |lines|))
      && forall k :: 0 <= k < |segs| ==> segs[k] == HeaderBlock(lines, hd, k)
  {
    BlocksInvariant(lines, hd);
    var ps, st := HeaderPositions(lines, hd), ScanLines(lines, hd);
    if ps != [] {
      var segs := SegmentsWith(lines, hd);
      forall k | 0 <= k < |segs|
        ensures segs[k] == HeaderBlock(lines, hd, k)
      {
        if k == |st.done| {
          assert NextHeader(ps, k, |lines|) == |lines|;
        }
      }
    }
  }

  /** The lines the blocks hold are never headers themselves. */
  lemma {:induction false} FollowingNotHeaders(lines: seq<seq<char>>, hd: seq<char> -> Option<nat>)
    ensures forall l :: l in Following(lines, hd) ==> hd(l).None?
    decreases |lines|
  {
    if lines != [] {
      FollowingNotHeaders(lines[..|lines| - 1], hd);
    }
  }

  lemma {:induction false} HeadersBelow(lines: seq<seq<char>>, hd: seq<char> -> Option<nat>, bound: nat)
    requires forall l :: hd(l).Some? ==> hd(l).value < bound
    ensures forall x :: x in Headers(lines, hd) ==> x < bound
    decreases |lines|
  {
    if lines != [] {
      HeadersBelow(lines[..|lines| - 1], hd, bound);
    }
  }

  lemma {:induction false} NumbersHas(bs: seq<Block>, b: Block)
    requires b in bs
    ensures b.number in Numbers(bs)
    decreases |bs|
  {
    if b != bs[|bs| - 1] {
      assert b in bs[..|bs| - 1] by {
        var k :| 0 <= k < |bs| && bs[k] == b;
        assert bs[..|bs| - 1][k] == b;
      }
      NumbersHas(bs[..|bs| - 1], b);
    }
  }

  /** Every block's number was read from a header, so it is below 1000. */
  lemma SegmentNumbersBound(lines: seq<seq<char>>)
    ensures forall b :: b in Segments(lines) ==> b.number < 1000
  {
    forall l ensures HeaderNumber(l).Some? ==> HeaderNumber(l).value < 1000 {
      HeaderNumberBound(l);
    }
    HeadersBelow(lines, HeaderNumber, 1000);
    SegmentsFollowHeaders(lines, HeaderNumber);
    var hs := Headers(lines, HeaderNumber);
    forall b | b in Segments(lines) ensures b.number < 1000 {
      NumbersHas(Segments(lines), b);
      if Numbers(Segments(lines)) != hs {
        assert b.number in hs by {
          var k :| 0 <= k < |hs| - 1 && hs[..|hs| - 1][k] == b.number;
          assert hs[k] == b.number;
        }
      }
    }
  }

  /** The result of split_into_questions, taken together. */
  lemma SplitProperties(lines: seq<seq<char>>)
    ensures SortedByNumber(SplitSpec(lines))
    ensures multiset(SplitSpec(lines)) == multiset(Segments(lines))
    ensures forall n: nat :: WithNumber(SplitSpec(lines), n) == WithNumber(Segments(lines), n)
    ensures forall k :: 0 <= k < |SplitSpec(lines)| ==> SplitSpec(lines)[k].number < 1000
  {
    SortSorted(Segments(lines));
    SortPermutes(Segments(lines));
    forall n: nat ensures WithNumber(SplitSpec(lines), n) == WithNumber(Segments(lines), n) {
      SortStable(Segments(lines), n);
    }
    SegmentNumbersBound(lines);
    forall k | 0 <= k < |SplitSpec(lines)| ensures SplitSpec(lines)[k].number < 1000 {
      assert SplitSpec(lines)[k] in multiset(Segments(lines));
    }
  }
}
