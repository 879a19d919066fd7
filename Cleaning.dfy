/**
 * Line cleaning (teste2.py:172-193): the duplicated-glyph repair, the noise
 * test and the cleaning pass over a page's lines.
 */
module Cleaning {
  import opened Base
  import opened Patterns

  // ---------------------------------------------------------------------------
  // fix_ocr_duplicates: re.sub(r"(.)\1{2,}", group 1, text)
  // ---------------------------------------------------------------------------

  /** The length of the run of s[0] at the front of s. */
  function RunLen(s: seq<char>): (n: nat)
    requires s != []
    ensures 1 <= n <= |s|
    ensures forall k :: 0 <= k < n ==> s[k] == s[0]
    ensures n == |s| || s[n] != s[0]
  {
    if |s| == 1 || s[1] != s[0] then 1 else 1 + RunLen(s[1..])
  }

  /** `(.)\1{2,}` matches at the front of s: three or more of one non-newline character. */
  predicate Collapsible(s: seq<char>) {
    s != [] && s[0] != '\n' && RunLen(s) >= 3
  }

  /**
   * fix_ocr_duplicates as re.sub scans: at each position either the pattern
   * matches (greedily, to the end of the run) and the run becomes one
   * character, or one character is copied and the scan moves on by one.
   */
  function FixOcrDuplicates(s: seq<char>): (r: seq<char>)
    ensures |r| <= |s|
    ensures r == [] <==> s == []
    ensures r != [] ==> r[0] == s[0]
    decreases |s|
  {
    if s == [] then []
    else if Collapsible(s) then [s[0]] + FixOcrDuplicates(s[RunLen(s)..])
    else [s[0]] + FixOcrDuplicates(s[1..])
  }

  /** The reference reading: every maximal run of three or more becomes one character, other runs stay. */
  function CollapseRuns(s: seq<char>): (r: seq<char>)
    ensures s == [] <==> r == []
    ensures r != [] ==> r[0] == s[0]
    decreases |s|
  {
    if s == [] then []
    else if Collapsible(s) then [s[0]] + CollapseRuns(s[RunLen(s)..])
    else s[..RunLen(s)] + CollapseRuns(s[RunLen(s)..])
  }

  /** Scanning a run that is not collapsed copies it whole, one character at a time. */
  lemma {:induction false} ScanShortRun(s: seq<char>)
    requires s != [] && !Collapsible(s)
    ensures FixOcrDuplicates(s) == s[..RunLen(s)] + FixOcrDuplicates(s[RunLen(s)..])
    decreases |s|
  {
    var t := s[1..];
    assert FixOcrDuplicates(s) == [s[0]] + FixOcrDuplicates(t);
    if RunLen(s) == 1 {
      assert s[..1] == [s[0]];
    } else {
      var n := RunLen(s);
      assert RunLen(t) == n - 1;
      assert !Collapsible(t);
      ScanShortRun(t);
      assert t[n - 1..] == s[n..];
      assert s[..n] == [s[0]] + t[..n - 1];
    }
  }

  /** The regex scan and the run reading agree on every string. */
  lemma {:induction false} FixIsCollapseRuns(s: seq<char>)
    ensures FixOcrDuplicates(s) == CollapseRuns(s)
    decreases |s|
  {
    if s != [] {
      FixIsCollapseRuns(s[RunLen(s)..]);
      if !Collapsible(s) {
        ScanShortRun(s);
      }
    }
  }

  function Repeat(c: char, n: nat): (r: seq<char>)
    ensures |r| == n && forall k :: 0 <= k < n ==> r[k] == c
  {
    if n == 0 then [] else [c] + Repeat(c, n - 1)
  }

  lemma {:induction false} RunLenOfRepeat(c: char, n: nat, t: seq<char>)
    requires n >= 1
    requires t == [] || t[0] != c
    ensures RunLen(Repeat(c, n) + t) == n
  {
    var s := Repeat(c, n) + t;
    if n > 1 {
      assert s[1..] == Repeat(c, n - 1) + t;
      RunLenOfRepeat(c, n - 1, t);
    }
  }

  /**
   * The run rule: a run of n >= 1 copies of c, followed by anything that does
   * not continue it, becomes one c when n >= 3 (and c is not a newline), and
   * stays as it is otherwise.
   */
  lemma RunRule(c: char, n: nat, t: seq<char>)
    requires n >= 1
    requires t == [] || t[0] != c
    ensures FixOcrDuplicates(Repeat(c, n) + t)
         == (if n >= 3 && c != '\n' then [c] else Repeat(c, n)) + FixOcrDuplicates(t)
  {
    var s := Repeat(c, n) + t;
    RunLenOfRepeat(c, n, t);
    assert s[n..] == t;
    assert s[..n] == Repeat(c, n);
    FixIsCollapseRuns(s);
    FixIsCollapseRuns(t);
  }

  /** No three identical consecutive characters (newlines apart). */
  predicate NoTriple(s: seq<char>) {
    forall i :: 0 <= i < |s| - 2 ==> !(s[i] == s[i + 1] == s[i + 2] && s[i] != '\n')
  }

  lemma {:induction false} CollapseRunsNoTriple(s: seq<char>)
    ensures NoTriple(CollapseRuns(s))
    decreases |s|
  {
    if s != [] {
      var n := RunLen(s);
      var rest := CollapseRuns(s[n..]);
      CollapseRunsNoTriple(s[n..]);
      var chunk := if Collapsible(s) then [s[0]] else s[..n];
      assert CollapseRuns(s) == chunk + rest;
      assert forall k :: 0 <= k < |chunk| ==> chunk[k] == s[0];
      assert rest != [] ==> rest[0] != s[0];
      assert !Collapsible(s) ==> (|chunk| < 3 || s[0] == '\n');
      var r := chunk + rest;
      forall i | 0 <= i < |r| - 2 ensures !(r[i] == r[i + 1] == r[i + 2] && r[i] != '\n') {
        if i >= |chunk| {
          assert r[i] == rest[i - |chunk|] && r[i + 1] == rest[i + 1 - |chunk|] && r[i + 2] == rest[i + 2 - |chunk|];
        } else if i + 2 < |chunk| {
          assert r[i] == s[0];
        } else {
          assert r[i] == s[0] && r[|chunk|] == rest[0];
        }
      }
    }
  }

  /** The repair never leaves three identical consecutive characters. */
  lemma FixNoTriple(s: seq<char>)
    ensures NoTriple(FixOcrDuplicates(s))
  {
    FixIsCollapseRuns(s);
    CollapseRunsNoTriple(s);
  }

  lemma NoTripleSuffix(s: seq<char>, n: nat)
    requires NoTriple(s) && n <= |s|
    ensures NoTriple(s[n..])
  {
    var t := s[n..];
    forall i | 0 <= i < |t| - 2 ensures !(t[i] == t[i + 1] == t[i + 2] && t[i] != '\n') {
      assert t[i] == s[n + i] && t[i + 1] == s[n + i + 1] && t[i + 2] == s[n + i + 2];
    }
  }

  lemma NoTripleNotCollapsible(s: seq<char>)
    requires NoTriple(s)
    ensures !Collapsible(s)
  {
    if s != [] {
      var n := RunLen(s);
      assert |s| >= 3 ==> !(s[0] == s[1] == s[2] && s[0] != '\n');
      assert n >= 3 ==> s[1] == s[0] && s[2] == s[0];
    }
  }

  lemma {:induction false} CollapseKeepsTripleFree(s: seq<char>)
    requires NoTriple(s)
    ensures CollapseRuns(s) == s
    decreases |s|
  {
    if s != [] {
      var n := RunLen(s);
      NoTripleNotCollapsible(s);
      var t := s[n..];
      NoTripleSuffix(s, n);
      CollapseKeepsTripleFree(t);
      assert CollapseRuns(s) == s[..n] + CollapseRuns(t);
      assert s == s[..n] + t;
    }
  }

  /** A string without three identical consecutive characters is left as it is. */
  lemma FixKeepsTripleFree(s: seq<char>)
    requires NoTriple(s)
    ensures FixOcrDuplicates(s) == s
  {
    FixIsCollapseRuns(s);
    CollapseKeepsTripleFree(s);
  }

  /** Repairing twice is repairing once. */
  lemma FixIdempotent(s: seq<char>)
    ensures FixOcrDuplicates(FixOcrDuplicates(s)) == FixOcrDuplicates(s)
  {
    FixNoTriple(s);
    FixKeepsTripleFree(FixOcrDuplicates(s));
  }

  /** A glyph tripled by the PDF layer is read once. */
  lemma FixTripledExample()
    ensures FixOcrDuplicates(['P', 'P', 'P', 'R', 'R', 'R']) == ['P', 'R']
  {
    RunRule('R', 3, []);
    assert Repeat('R', 3) == ['R', 'R', 'R'];
    RunRule('P', 3, ['R', 'R', 'R']);
    assert Repeat('P', 3) + ['R', 'R', 'R'] == ['P', 'P', 'P', 'R', 'R', 'R'];
  }

  /** A doubled glyph is left alone. */
  lemma FixDoubledExample()
    ensures FixOcrDuplicates(['P', 'P', 'R', 'R']) == ['P', 'P', 'R', 'R']
  {
    RunRule('R', 2, []);
    assert Repeat('R', 2) == ['R', 'R'];
    RunRule('P', 2, ['R', 'R']);
    assert Repeat('P', 2) + ['R', 'R'] == ['P', 'P', 'R', 'R'];
  }

  // ---------------------------------------------------------------------------
  // is_noise and clean_lines
  // ---------------------------------------------------------------------------

  /** is_noise: blank after stripping, or matched by one of the noise patterns. */
  predicate IsNoise(line: seq<char>): (r: bool)
    ensures Strip(line) != [] && (Strip(line)[0] == 'Q' || Strip(line)[0] == 'q') ==> !r
  {
    var s := Strip(line);
    QLinePattern(s);
    s == [] || MatchesNoisePattern(s)
  }

  /** The repair clean_lines applies to each line before the noise test. */
  function Repair(line: seq<char>): seq<char> {
    FixOcrDuplicates(Strip(line))
  }

  /** The lines a cleaning pass with noise test `noise` keeps, repaired, in order. */
  function CleanWith(lines: seq<seq<char>>, noise: seq<char> -> bool): seq<seq<char>> {
    if lines == [] then []
    else
      var l := Repair(lines[|lines| - 1]);
      CleanWith(lines[..|lines| - 1], noise) + (if noise(l) then [] else [l])
  }

  /** What clean_lines returns. */
  function CleanLinesSpec(lines: seq<seq<char>>): seq<seq<char>> {
    CleanWith(lines, IsNoise)
  }

  /** clean_lines. */
  method CleanLines(lines: seq<seq<char>>) returns (result: seq<seq<char>>)
    ensures result == CleanLinesSpec(lines)
  {
    result := [];
    for i := 0 to |lines|
      invariant result == CleanWith(lines[..i], IsNoise)
    {
      var line := FixOcrDuplicates(Strip(lines[i]));
      if !IsNoise(line) {
        result := result + [line];
      }
      assert lines[..i + 1][..i] == lines[..i];
    }
    assert lines[..|lines|] == lines;
  }

  /** The indices of the lines a cleaning pass keeps: increasing, and exactly the non-noise ones. */
  function KeptIndices(lines: seq<seq<char>>, noise: seq<char> -> bool): (idx: seq<nat>)
    ensures forall k :: 0 <= k < |idx| ==> idx[k] < |lines|
    ensures forall k, m :: 0 <= k < m < |idx| ==> idx[k] < idx[m]
    ensures forall i :: 0 <= i < |lines| ==> (i in idx <==> !noise(Repair(lines[i])))
  {
    if lines == [] then []
    else
      var n := |lines| - 1;
      assert forall i :: 0 <= i < n ==> lines[..n][i] == lines[i];
      KeptIndices(lines[..n], noise) + (if noise(Repair(lines[n])) then [] else [n])
  }

  lemma {:induction false} CleanWithSubsequence(lines: seq<seq<char>>, noise: seq<char> -> bool)
    ensures var r := CleanWith(lines, noise);
      var idx := KeptIndices(lines, noise);
      |idx| == |r| && forall k :: 0 <= k < |idx| ==> r[k] == Repair(lines[idx[k]])
    decreases |lines|
  {
    if lines != [] {
      CleanWithSubsequence(lines[..|lines| - 1], noise);
      CleanWithSubsequenceStep(lines, noise);
    }
  }

  lemma CleanWithSubsequenceStep(lines: seq<seq<char>>, noise: seq<char> -> bool)
    requires lines != []
    requires var init := lines[..|lines| - 1];
      var r := CleanWith(init, noise);
      var idx := KeptIndices(init, noise);
      |idx| == |r| && forall k :: 0 <= k < |idx| ==> r[k] == Repair(init[idx[k]])
    ensures var r := CleanWith(lines, noise);
      var idx := KeptIndices(lines, noise);
      |idx| == |r| && forall k :: 0 <= k < |idx| ==> r[k] == Repair(lines[idx[k]])
  {
    var n := |lines| - 1;
    var init := lines[..n];
    var r0, idx0 := CleanWith(init, noise), KeptIndices(init, noise);
    var l := Repair(lines[n]);
    var r, idx := CleanWith(lines, noise), KeptIndices(lines, noise);
    assert r == r0 + (if noise(l) then [] else [l]);
    assert idx == idx0 + (if noise(l) then [] else [n]);
    forall k | 0 <= k < |idx| ensures r[k] == Repair(lines[idx[k]]) {
      if k < |idx0| {
        assert r[k] == r0[k] && idx[k] == idx0[k];
        assert init[idx0[k]] == lines[idx0[k]];
      } else {
        assert r[k] == l && idx[k] == n;
      }
    }
  }

  /**
   * The cleaned lines are the repaired input lines at strictly increasing
   * positions, and a position is skipped exactly when its repaired line is noise.
   */
  lemma CleanIsOrderedSubsequence(lines: seq<seq<char>>)
    ensures var r := CleanLinesSpec(lines);
      var idx := KeptIndices(lines, IsNoise);
      |idx| == |r|
      && (forall k :: 0 <= k < |idx| ==> idx[k] < |lines| && r[k] == Repair(lines[idx[k]]))
      && (forall k, m :: 0 <= k < m < |idx| ==> idx[k] < idx[m])
      && (forall i :: 0 <= i < |lines| ==> (i in idx <==> !IsNoise(Repair(lines[i]))))
  {
    CleanWithSubsequence(lines, IsNoise);
  }

  lemma {:induction false} CleanWithNoNoise(lines: seq<seq<char>>, noise: seq<char> -> bool)
    ensures forall k :: 0 <= k < |CleanWith(lines, noise)| ==> !noise(CleanWith(lines, noise)[k])
    decreases |lines|
  {
    if lines != [] {
      CleanWithNoNoise(lines[..|lines| - 1], noise);
    }
  }

  /** No cleaned line is empty or noise. */
  lemma CleanLinesNoNoise(lines: seq<seq<char>>)
    ensures forall k :: 0 <= k < |CleanLinesSpec(lines)| ==>
      CleanLinesSpec(lines)[k] != [] && !IsNoise(CleanLinesSpec(lines)[k])
  {
    CleanWithNoNoise(lines, IsNoise);
    assert IsNoise([]) by { assert Strip([]) == []; }
  }

  /** Cleaning works line by line: cleaning a concatenation concatenates the cleanings. */
  lemma {:induction false} CleanLinesAppend(a: seq<seq<char>>, b: seq<seq<char>>, noise: seq<char> -> bool)
    ensures CleanWith(a + b, noise) == CleanWith(a, noise) + CleanWith(b, noise)
    decreases |b|
  {
    if b == [] {
      assert a + b == a;
    } else {
      assert (a + b)[..|a + b| - 1] == a + b[..|b| - 1];
      CleanLinesAppend(a, b[..|b| - 1], noise);
    }
  }

  /**
   * No noise pattern can match a line whose first character is a Q: each one
   * starts with '*', a digit, or one of the letters of CH, CN, LC, MT, ENEM,
   * CADERNO and the colour names.
   */
  lemma QLinePattern(s: seq<char>)
    ensures s != [] && (s[0] == 'Q' || s[0] == 'q') ==> !MatchesNoisePattern(s)
  {
    if s != [] && (s[0] == 'Q' || s[0] == 'q') {
      assert Lower(s[0]) == 'q';
      NotCiAtHead(s, 0, "CH");
      NotCiAtHead(s, 0, "CN");
      NotCiAtHead(s, 0, "LC");
      NotCiAtHead(s, 0, "MT");
      NotCiAtHead(s, 0, "ENEM");
      NotCiAtHead(s, 0, "CADERNO");
      assert !NoiseMarker(s) && !NoiseYear(s) && !NoiseEnem(s) && !NoiseCaderno(s);
      assert !NoiseDay(s) && !NoiseNumber(s);
      assert !NoiseColour(s) by {
        forall i | 0 <= i < |Colours| ensures !CiAt(s, 0, Colours[i]) {
          NotCiAtHead(s, 0, Colours[i]);
        }
      }
    }
  }

  /** A bare year is noise. */
  lemma YearLineIsNoise()
    ensures IsNoise("2013")
  {
    assert Strip("2013") == "2013";
  }

  /** A sentence that merely contains a year is kept. */
  lemma QuestionLineNotNoise()
    ensures !IsNoise("Questão 2013 trata de")
  {
    var q := "Questão 2013 trata de";
    assert LStrip(q) == q;
    assert RStrip(q) == q;
  }
}
