/**
 * extract_metadata, find_area_boundaries (teste2.py:403-435) and the
 * extract_exam assembly (teste2.py:462-521): the document header, one
 * section per knowledge area, and the questions no area covered.
 */
module Framing {
  import opened Base
  import opened Patterns
  import Layout
  import Cleaning
  import Segmenter
  import Formatter

  // ---------------------------------------------------------------------------
  // extract_metadata
  // ---------------------------------------------------------------------------

  const DefaultTitle: seq<char> := "EXAME NACIONAL DO ENSINO MÉDIO"

  datatype Meta = Meta(ano: seq<char>, dia: seq<char>, cor: seq<char>, titulo: seq<char>)

  /** What the metadata loop asks about a line. */
  datatype LineFacts = LineFacts(
    text: seq<char>,            // the stripped line
    year: bool,                 // `^(19|20)\d{2}$`
    day: Option<seq<char>>,     // the first `\d[ºo°]\s*DIA`, ignoring case
    exam: bool)                 // "EXAME NACIONAL" in upper() and longer than 10

  function FactsOf(line: seq<char>): LineFacts {
    var s := Strip(line);
    LineFacts(s, IsYearLine(s), FindDayMark(s, 0), Contains(Upper(s), "EXAME NACIONAL") && |s| > 10)
  }

  /** One turn of the loop over the first 60 lines. */
  function MetaStep(m: Meta, f: LineFacts): Meta {
    var m1 := if f.year && m.ano == [] then m.(ano := f.text) else m;
    var m2 := if f.day.Some? && m1.dia == [] then m1.(dia := f.day.value) else m1;
    if f.exam && m2.titulo == [] then m2.(titulo := f.text) else m2
  }

  function MetaWith(lines: seq<seq<char>>, facts: seq<char> -> LineFacts): Meta {
    if lines == [] then Meta([], [], [], DefaultTitle)
    else MetaStep(MetaWith(lines[..|lines| - 1], facts), facts(lines[|lines| - 1]))
  }

  /** `lines[:n]`. */
  function Take<T>(s: seq<T>, n: nat): (r: seq<T>)
    ensures |r| == if |s| < n then |s| else n
    ensures forall k :: 0 <= k < |r| ==> r[k] == s[k]
  {
    if |s| < n then s else s[..n]
  }

  /** `str.capitalize` on an upper-case word: the first letter kept, the rest lower-cased. */
  function Capitalize(w: seq<char>): (r: seq<char>)
    ensures |r| == |w|
    ensures w != [] ==> r[0] == w[0]
    ensures forall k :: 0 < k < |w| ==> r[k] == Lower(w[k])
  {
    if w == [] then [] else Capitalize(w[..|w| - 1]) + [if |w| == 1 then w[0] else Lower(w[|w| - 1])]
  }

  /** `any(cor in l.upper() for l in heads)`. */
  predicate ColourIn(heads: seq<seq<char>>, cor: seq<char>) {
    exists k :: 0 <= k < |heads| && Contains(Upper(heads[k]), cor)
  }

  /** The colour loop from position i of the list of names. */
  function ColourFrom(heads: seq<seq<char>>, names: seq<seq<char>>, i: nat, found: (seq<seq<char>>, seq<char>) -> bool): seq<char>
    decreases |names| - i
  {
    if i >= |names| then []
    else if found(heads, names[i]) then Capitalize(names[i])
    else ColourFrom(heads, names, i + 1, found)
  }

  function MetaSpec(lines: seq<seq<char>>): Meta {
    MetaWith(Take(lines, 60), FactsOf).(cor := ColourFrom(Take(lines, 12), Colours, 0, ColourIn))
  }

  /** The first loop of extract_metadata, over the first 60 lines. */
  method ScanHead(head: seq<seq<char>>) returns (meta: Meta)
    ensures meta == MetaWith(head, FactsOf)
  {
    meta := Meta([], [], [], DefaultTitle);
    for i := 0 to |head|
      invariant meta == MetaWith(head[..i], FactsOf)
    {
      assert head[..i + 1][..i] == head[..i];
      var f := FactsOf(head[i]);
      var s := f.text;
      if f.year && meta.ano == [] {
        meta := meta.(ano := s);
      }
      var mDia := f.day;
      if mDia.Some? && meta.dia == [] {
        meta := meta.(dia := mDia.value);
      }
      if f.exam && meta.titulo == [] {
        meta := meta.(titulo := s);
      }
    }
    assert head[..|head|] == head;
  }

  /** The colour loop of extract_metadata, over the first 12 lines; empty when no colour is named. */
  method FindColour(first: seq<seq<char>>) returns (cor: seq<char>)
    ensures cor == ColourFrom(first, Colours, 0, ColourIn)
  {
    cor := [];
    var i := 0;
    while i < |Colours|
      invariant 0 <= i <= |Colours|
      invariant ColourFrom(first, Colours, i, ColourIn) == ColourFrom(first, Colours, 0, ColourIn)
    {
      if ColourIn(first, Colours[i]) {
        cor := Capitalize(Colours[i]);
        return;
      }
      i := i + 1;
    }
  }

  /** extract_metadata. */
  method ExtractMetadata(lines: seq<seq<char>>) returns (meta: Meta)
    ensures meta == MetaSpec(lines)
  {
    var head := Take(lines, 60);
    meta := ScanHead(head);
    TitleNeverChanges(head, FactsOf);
    var cor := FindColour(Take(lines, 12));
    if cor != [] {
      meta := meta.(cor := cor);
    }
  }

  /** The title default is never replaced: the override fires only while the title is empty. */
  lemma {:induction false} TitleNeverChanges(lines: seq<seq<char>>, facts: seq<char> -> LineFacts)
    ensures MetaWith(lines, facts).titulo == DefaultTitle
    ensures MetaWith(lines, facts).cor == []
    decreases |lines|
  {
    if lines != [] {
      TitleNeverChanges(lines[..|lines| - 1], facts);
    }
  }

  /** The year is the text of the first year line; empty when there is none. */
  lemma {:induction false} YearIsFirstWith(lines: seq<seq<char>>, facts: seq<char> -> LineFacts)
    requires forall k :: 0 <= k < |lines| && facts(lines[k]).year ==> facts(lines[k]).text != []
    ensures var m := MetaWith(lines, facts);
      && (m.ano == [] <==> forall k :: 0 <= k < |lines| ==> !facts(lines[k]).year)
      && (m.ano != [] ==> exists k :: 0 <= k < |lines| && facts(lines[k]).year && m.ano == facts(lines[k]).text
                                      && forall j :: 0 <= j < k ==> !facts(lines[j]).year)
    decreases |lines|
  {
    if lines != [] {
      var init := lines[..|lines| - 1];
      assert forall k :: 0 <= k < |init| ==> init[k] == lines[k];
      YearIsFirstWith(init, facts);
      var m0 := MetaWith(init, facts);
      var f := facts(lines[|lines| - 1]);
      assert MetaWith(lines, facts).ano == if f.year && m0.ano == [] then f.text else m0.ano;
      if m0.ano != [] {
        var k :| 0 <= k < |init| && facts(init[k]).year && m0.ano == facts(init[k]).text
                 && forall j :: 0 <= j < k ==> !facts(init[j]).year;
        assert facts(lines[k]) == facts(init[k]);
      }
    }
  }

  /** The day is the first day mark found; empty when there is none. */
  lemma {:induction false} DayIsFirstWith(lines: seq<seq<char>>, facts: seq<char> -> LineFacts)
    requires forall k :: 0 <= k < |lines| && facts(lines[k]).day.Some? ==> facts(lines[k]).day.value != []
    ensures var m := MetaWith(lines, facts);
      && (m.dia == [] <==> forall k :: 0 <= k < |lines| ==> facts(lines[k]).day.None?)
      && (m.dia != [] ==> exists k :: 0 <= k < |lines| && facts(lines[k]).day == Some(m.dia)
                                      && forall j :: 0 <= j < k ==> facts(lines[j]).day.None?)
    decreases |lines|
  {
    if lines != [] {
      var init := lines[..|lines| - 1];
      assert forall k :: 0 <= k < |init| ==> init[k] == lines[k];
      DayIsFirstWith(init, facts);
      var m0 := MetaWith(init, facts);
      var f := facts(lines[|lines| - 1]);
      assert MetaWith(lines, facts).dia == if f.day.Some? && m0.dia == [] then f.day.value else m0.dia;
      if m0.dia != [] {
        var k :| 0 <= k < |init| && facts(init[k]).day == Some(m0.dia)
                 && forall j :: 0 <= j < k ==> facts(init[j]).day.None?;
        assert facts(lines[k]) == facts(init[k]);
      }
    }
  }

  lemma {:induction false} DayMarkNonEmpty(s: seq<char>, p: nat)
    ensures FindDayMark(s, p).Some? ==> FindDayMark(s, p).value != []
    decreases |s| - p
  {
    if p < |s| && DayMarkEnd(s, p).None? {
      DayMarkNonEmpty(s, p + 1);
    }
  }

  lemma FactsNonEmpty(line: seq<char>)
    ensures FactsOf(line).year ==> FactsOf(line).text != []
    ensures FactsOf(line).day.Some? ==> FactsOf(line).day.value != []
  {
    DayMarkNonEmpty(Strip(line), 0);
  }

  /**
   * extract_metadata's promises: the year is the first of the first 60
   * stripped lines reading 19xx or 20xx, the day the first "Nº DIA" mark among
   * them (each empty when there is none), and the title the fixed default.
   */
  lemma MetadataFirstHits(lines: seq<seq<char>>)
    ensures var m, head := MetaSpec(lines), Take(lines, 60);
      && m.titulo == DefaultTitle
      && (m.ano == [] <==> forall k :: 0 <= k < |head| ==> !IsYearLine(Strip(head[k])))
      && (m.ano != [] ==> exists k :: 0 <= k < |head| && m.ano == Strip(head[k]) && IsYearLine(m.ano)
                                      && forall j :: 0 <= j < k ==> !IsYearLine(Strip(head[j])))
      && (m.dia == [] <==> forall k :: 0 <= k < |head| ==> FindDayMark(Strip(head[k]), 0).None?)
      && (m.dia != [] ==> exists k :: 0 <= k < |head| && FindDayMark(Strip(head[k]), 0) == Some(m.dia)
                                      && forall j :: 0 <= j < k ==> FindDayMark(Strip(head[j]), 0).None?)
  {
    var head := Take(lines, 60);
    forall k | 0 <= k < |head| ensures FactsOf(head[k]).year ==> FactsOf(head[k]).text != [] {
      FactsNonEmpty(head[k]);
    }
    forall k | 0 <= k < |head| ensures FactsOf(head[k]).day.Some? ==> FactsOf(head[k]).day.value != [] {
      FactsNonEmpty(head[k]);
    }
    TitleNeverChanges(head, FactsOf);
    YearIsFirstWith(head, FactsOf);
    DayIsFirstWith(head, FactsOf);
  }

  /** The colour is the first name of the list, in the list's order, that the lines contain. */
  lemma {:induction false} ColourIsFirstWith(heads: seq<seq<char>>, names: seq<seq<char>>, i: nat, found: (seq<seq<char>>, seq<char>) -> bool)
    requires i <= |names| && forall j :: 0 <= j < |names| ==> names[j] != []
    ensures var c := ColourFrom(heads, names, i, found);
      && (c == [] <==> forall j :: i <= j < |names| ==> !found(heads, names[j]))
      && (c != [] ==> exists j :: i <= j < |names| && c == Capitalize(names[j]) && found(heads, names[j])
                                  && forall l :: i <= l < j ==> !found(heads, names[l]))
    decreases |names| - i
  {
    if i < |names| {
      var c := ColourFrom(heads, names, i, found);
      if found(heads, names[i]) {
        assert c == Capitalize(names[i]) && |c| == |names[i]| > 0;
      } else {
        ColourIsFirstWith(heads, names, i + 1, found);
        assert c == ColourFrom(heads, names, i + 1, found);
        if c != [] {
          var j :| i + 1 <= j < |names| && c == Capitalize(names[j]) && found(heads, names[j])
                   && forall l :: i + 1 <= l < j ==> !found(heads, names[l]);
          assert forall l :: i <= l < j ==> !found(heads, names[l]);
        }
        assert (forall j :: i <= j < |names| ==> !found(heads, names[j]))
           <==> (forall j :: i + 1 <= j < |names| ==> !found(heads, names[j]));
      }
    }
  }

  /** The colour is the first of AZUL, AMARELO, ... found in the upper-cased first 12 lines, capitalised; empty when none is. */
  lemma ColourIsFirst(lines: seq<seq<char>>)
    ensures var c, heads := MetaSpec(lines).cor, Take(lines, 12);
      && (c == [] <==> forall j :: 0 <= j < |Colours| ==> !ColourIn(heads, Colours[j]))
      && (c != [] ==> exists j :: 0 <= j < |Colours| && c == Capitalize(Colours[j]) && ColourIn(heads, Colours[j])
                                  && forall l :: 0 <= l < j ==> !ColourIn(heads, Colours[l]))
  {
    assert forall j :: 0 <= j < |Colours| ==> |Colours[j]| >= 4;
    ColourIsFirstWith(Take(lines, 12), Colours, 0, ColourIn);
  }

  // ---------------------------------------------------------------------------
  // find_area_boundaries
  // ---------------------------------------------------------------------------

  datatype AreaStart = AreaStart(name: seq<char>, start: nat)

  datatype Area = Area(name: seq<char>, start: nat, end: nat)

  /** The stripped line when it holds an area header (AREA_HEADER_RE). */
  function AreaName(line: seq<char>): Option<seq<char>> {
    var s := Strip(line);
    if ContainsAreaHeader(s) then Some(s) else None
  }

  /** The first loop: every line holding an area header, with its index. */
  function Starts(lines: seq<seq<char>>, hd: seq<char> -> Option<seq<char>>): seq<AreaStart> {
    if lines == [] then []
    else
      var init, last := lines[..|lines| - 1], lines[|lines| - 1];
      Starts(init, hd) + if hd(last).Some? then [AreaStart(hd(last).value, |lines| - 1)] else []
  }

  /** Where area j ends: where the next one starts, or at the end of the text. */
  function EndOf(st: seq<AreaStart>, j: nat, total: nat): nat {
    if j + 1 < |st| then st[j + 1].start else total
  }

  function AreasWith(lines: seq<seq<char>>, hd: seq<char> -> Option<seq<char>>): seq<Area> {
    var st := Starts(lines, hd);
    if st == [] then [Area("Questões", 0, |lines|)]
    else seq(|st|, j requires 0 <= j < |st| => Area(st[j].name, st[j].start, EndOf(st, j, |lines|)))
  }

  function AreaSpec(lines: seq<seq<char>>): seq<Area> {
    AreasWith(lines, AreaName)
  }

  /** find_area_boundaries. */
  method FindAreaBoundaries(allLines: seq<seq<char>>) returns (result: seq<Area>)
    ensures result == AreaSpec(allLines)
  {
    var areas: seq<AreaStart> := [];
    for i := 0 to |allLines|
      invariant areas == Starts(allLines[..i], AreaName)
    {
      assert allLines[..i + 1][..i] == allLines[..i];
      var s := Strip(allLines[i]);
      if ContainsAreaHeader(s) {
        areas := areas + [AreaStart(s, i)];
      }
    }
    assert allLines[..|allLines|] == allLines;
    if areas == [] {
      return [Area("Questões", 0, |allLines|)];
    }
    result := [];
    for j := 0 to |areas|
      invariant |result| == j
      invariant forall k :: 0 <= k < j ==> result[k] == Area(areas[k].name, areas[k].start, EndOf(areas, k, |allLines|))
    {
      var end := if j + 1 < |areas| then areas[j + 1].start else |allLines|;
      result := result + [Area(areas[j].name, areas[j].start, end)];
    }
  }

  /** The starts are exactly the header lines, in increasing order, each named by its header. */
  lemma {:induction false} StartsAreHeaders(lines: seq<seq<char>>, hd: seq<char> -> Option<seq<char>>)
    ensures var st := Starts(lines, hd);
      && (forall k :: 0 <= k < |st| ==> st[k].start < |lines| && hd(lines[st[k].start]) == Some(st[k].name))
      && (forall k, l :: 0 <= k < l < |st| ==> st[k].start < st[l].start)
      && (forall i :: 0 <= i < |lines| && hd(lines[i]).Some? ==> exists k :: 0 <= k < |st| && st[k].start == i)
    decreases |lines|
  {
    if lines != [] {
      var init, last := lines[..|lines| - 1], lines[|lines| - 1];
      StartsAreHeaders(init, hd);
      var st0 := Starts(init, hd);
      var st := Starts(lines, hd);
      assert forall k :: 0 <= k < |init| ==> init[k] == lines[k];
      if hd(last).Some? {
        assert st == st0 + [AreaStart(hd(last).value, |lines| - 1)];
        forall i | 0 <= i < |lines| && hd(lines[i]).Some? ensures exists k :: 0 <= k < |st| && st[k].start == i {
          if i == |lines| - 1 {
            assert st[|st| - 1].start == i;
          } else {
            assert hd(init[i]).Some?;
            var k :| 0 <= k < |st0| && st0[k].start == i;
            assert st[k].start == i;
          }
        }
      } else {
        assert st == st0;
        forall i | 0 <= i < |lines| && hd(lines[i]).Some? ensures exists k :: 0 <= k < |st| && st[k].start == i {
          assert i < |init| && hd(init[i]).Some?;
        }
      }
    }
  }

  /** A header line lies at or after the first start, and no area runs past it. */
  lemma HeaderBoundsAreas(lines: seq<seq<char>>, hd: seq<char> -> Option<seq<char>>, i: nat)
    requires i < |lines| && hd(lines[i]).Some?
    ensures var st := Starts(lines, hd);
      st != [] && st[0].start <= i
      && forall k :: 0 <= k < |st| && st[k].start < i ==> EndOf(st, k, |lines|) <= i
  {
    StartsAreHeaders(lines, hd);
    var st := Starts(lines, hd);
    var m :| 0 <= m < |st| && st[m].start == i;
    assert m == 0 || st[0].start < st[m].start;
    forall k | 0 <= k < |st| && st[k].start < i ensures EndOf(st, k, |lines|) <= i {
      assert k + 1 <= m;
      assert k + 1 == m || st[k + 1].start < st[m].start;
    }
  }

  /** With no header line, one area named "Questões" covers the whole text. */
  lemma AreasWithoutHeaders(lines: seq<seq<char>>, hd: seq<char> -> Option<seq<char>>)
    requires Starts(lines, hd) == []
    ensures AreasWith(lines, hd) == [Area("Questões", 0, |lines|)]
    ensures forall i :: 0 <= i < |lines| ==> hd(lines[i]).None?
  {
    StartsAreHeaders(lines, hd);
  }

  /**
   * With header lines, the areas cut the text from the first header to the
   * end into contiguous pieces: each starts at a header line and is named
   * after it, runs to the next header, and the last one ends with the text.
   */
  lemma AreasContiguous(lines: seq<seq<char>>, hd: seq<char> -> Option<seq<char>>)
    requires Starts(lines, hd) != []
    ensures var r := AreasWith(lines, hd);
      && r != [] && r[|r| - 1].end == |lines|
      && (forall k :: 0 <= k < |r| ==> r[k].start < r[k].end <= |lines| && hd(lines[r[k].start]) == Some(r[k].name))
      && (forall k :: 0 <= k < |r| - 1 ==> r[k].end == r[k + 1].start)
  {
    AreasInBounds(lines, hd);
    AreasChain(lines, hd);
  }

  lemma AreasInBounds(lines: seq<seq<char>>, hd: seq<char> -> Option<seq<char>>)
    requires Starts(lines, hd) != []
    ensures var r := AreasWith(lines, hd);
      forall k :: 0 <= k < |r| ==> r[k].start < r[k].end <= |lines| && hd(lines[r[k].start]) == Some(r[k].name)
  {
    StartsAreHeaders(lines, hd);
    var st := Starts(lines, hd);
    var r := AreasWith(lines, hd);
    forall k | 0 <= k < |r| ensures r[k].start < r[k].end <= |lines| && hd(lines[r[k].start]) == Some(r[k].name) {
      assert r[k] == Area(st[k].name, st[k].start, EndOf(st, k, |lines|));
      assert st[k].start < |lines|;
      if k + 1 < |st| {
        assert st[k].start < st[k + 1].start;
        assert st[k + 1].start < |lines|;
      }
    }
  }

  lemma AreasChain(lines: seq<seq<char>>, hd: seq<char> -> Option<seq<char>>)
    requires Starts(lines, hd) != []
    ensures var r := AreasWith(lines, hd);
      && r != [] && r[|r| - 1].end == |lines|
      && (forall k :: 0 <= k < |r| - 1 ==> r[k].end == r[k + 1].start)
  {
    var st := Starts(lines, hd);
    var r := AreasWith(lines, hd);
    assert |r| == |st|;
    forall k | 0 <= k < |r| - 1 ensures r[k].end == r[k + 1].start {
      assert r[k] == Area(st[k].name, st[k].start, EndOf(st, k, |lines|));
      assert r[k + 1] == Area(st[k + 1].name, st[k + 1].start, EndOf(st, k + 1, |lines|));
    }
    assert r[|r| - 1] == Area(st[|st| - 1].name, st[|st| - 1].start, |lines|);
  }

  /** No header line lies inside an area, nor before the first one. */
  lemma AreasHaveNoInnerHeader(lines: seq<seq<char>>, hd: seq<char> -> Option<seq<char>>)
    ensures var r := AreasWith(lines, hd);
      && (forall k, i :: 0 <= k < |r| && r[k].start < i < r[k].end && i < |lines| ==> hd(lines[i]).None?)
      && (forall i :: 0 <= i < r[0].start && i < |lines| ==> hd(lines[i]).None?)
  {
    var st := Starts(lines, hd);
    var r := AreasWith(lines, hd);
    if st == [] {
      AreasWithoutHeaders(lines, hd);
    } else {
      forall k, i | 0 <= k < |r| && r[k].start < i < r[k].end && i < |lines| ensures hd(lines[i]).None? {
        assert r[k] == Area(st[k].name, st[k].start, EndOf(st, k, |lines|));
        if hd(lines[i]).Some? {
          HeaderBoundsAreas(lines, hd, i);
        }
      }
      forall i | 0 <= i < r[0].start && i < |lines| ensures hd(lines[i]).None? {
        if hd(lines[i]).Some? {
          HeaderBoundsAreas(lines, hd, i);
        }
      }
    }
  }

  // ---------------------------------------------------------------------------
  // extract_exam
  // ---------------------------------------------------------------------------

  /** One page as the PDF reader hands it over: its words and its width. */
  datatype Page = Page(words: seq<Layout.Word>, width: real)

  /** all_lines: each page's lines, cleaned, page after page. */
  function AllLines(pages: seq<Page>): seq<seq<char>> {
    if pages == [] then []
    else
      var last := pages[|pages| - 1];
      AllLines(pages[..|pages| - 1]) + Cleaning.CleanLinesSpec(Layout.RenderLines(Layout.PageGroups(last.words, last.width)))
  }

  /** Python's `s[i:j]` for non-negative bounds. */
  function Slice<T>(s: seq<T>, i: nat, j: nat): (r: seq<T>)
    ensures i <= j <= |s| ==> r == s[i..j]
  {
    var e := if j < |s| then j else |s|;
    if i >= e then [] else s[i..e]
  }

  /** The header's items joined by " | ": year, day and colour, each when found. */
  function MetaItems(meta: Meta): seq<seq<char>> {
    (if meta.ano != [] then ["**Ano:** " + meta.ano] else [])
    + (if meta.dia != [] then ["**" + meta.dia + "**"] else [])
    + (if meta.cor != [] then ["**Caderno " + meta.cor + "**"] else [])
  }

  function HeaderParts(meta: Meta, fileName: seq<char>): seq<seq<char>> {
    var items := MetaItems(meta);
    ["# " + meta.titulo, ""]
    + (if items != [] then [JoinWith(items, " | "), ""] else [])
    + ["*Fonte: `" + fileName + "`*", "", "---", ""]
  }

  /** range_line: the first of the lines holding a "Questões de N a M" range. */
  function RangeLine(lines: seq<seq<char>>): (r: Option<seq<char>>)
    ensures r.Some? ==> r.value in lines && ContainsRange(r.value)
  {
    if lines == [] then None
    else if ContainsRange(lines[0]) then Some(lines[0])
    else RangeLine(lines[1..])
  }

  /**
   * The hint line is the first line announcing a range of questions, and
   * there is none exactly when no line announces one.
   */
  lemma {:induction false} RangeLineFirst(lines: seq<seq<char>>)
    ensures RangeLine(lines).None? <==> forall k :: 0 <= k < |lines| ==> !ContainsRange(lines[k])
    ensures RangeLine(lines).Some? ==>
      exists k :: 0 <= k < |lines| && lines[k] == RangeLine(lines).value && ContainsRange(lines[k])
        && forall m :: 0 <= m < k ==> !ContainsRange(lines[m])
    decreases |lines|
  {
    if lines != [] && !ContainsRange(lines[0]) {
      var tail := lines[1..];
      RangeLineFirst(tail);
      assert forall k :: 1 <= k < |lines| ==> lines[k] == tail[k - 1];
      if RangeLine(tail).Some? {
        var k :| 0 <= k < |tail| && tail[k] == RangeLine(tail).value && ContainsRange(tail[k])
          && forall m :: 0 <= m < k ==> !ContainsRange(tail[m]);
        assert lines[k + 1] == tail[k];
        forall m | 0 <= m < k + 1 ensures !ContainsRange(lines[m]) {
          if m > 0 { assert lines[m] == tail[m - 1]; }
        }
      } else {
        forall k | 0 <= k < |lines| ensures !ContainsRange(lines[k]) {
          if k > 0 { assert lines[k] == tail[k - 1]; }
        }
      }
    } else if lines != [] {
      assert lines[0] == RangeLine(lines).value;
    }
  }

  function AreaHeading(name: seq<char>, areaLines: seq<seq<char>>): seq<seq<char>> {
    ["# " + name, ""]
    + (match RangeLine(Take(areaLines, 6)) case Some(l) => ["*" + Strip(l) + "*", ""] case None => [])
    + ["---", ""]
  }

  /** The two stages the assembly calls per question and per stretch of lines. */
  type FormatFn = (nat, seq<seq<char>>) -> seq<char>
  type SplitFn = seq<seq<char>> -> seq<Segmenter.Block>

  /** One formatted section per block, in the blocks' order. */
  function QuestionParts(qs: seq<Segmenter.Block>, fmt: FormatFn): (r: seq<seq<char>>)
    ensures |r| == |qs|
  {
    if qs == [] then []
    else
      var last := qs[|qs| - 1];
      QuestionParts(qs[..|qs| - 1], fmt) + [fmt(last.number, last.lines)]
  }

  function NumberSet(qs: seq<Segmenter.Block>): (r: set<nat>)
    ensures forall n :: n in r <==> exists k :: 0 <= k < |qs| && qs[k].number == n
  {
    if qs == [] then {}
    else
      var init := qs[..|qs| - 1];
      assert forall k :: 0 <= k < |init| ==> init[k] == qs[k];
      NumberSet(init) + {qs[|qs| - 1].number}
  }

  /** What the assembly appends for one area. */
  function AreaParts(allLines: seq<seq<char>>, a: Area, split: SplitFn, fmt: FormatFn): seq<seq<char>> {
    var qs := split(Slice(allLines, a.start, a.end));
    if qs == [] then [] else AreaHeading(a.name, Slice(allLines, a.start, a.end)) + QuestionParts(qs, fmt)
  }

  function SectionsWith(allLines: seq<seq<char>>, areas: seq<Area>, split: SplitFn, fmt: FormatFn): seq<seq<char>> {
    if areas == [] then []
    else SectionsWith(allLines, areas[..|areas| - 1], split, fmt) + AreaParts(allLines, areas[|areas| - 1], split, fmt)
  }

  /** used: the numbers of every question some area formatted. */
  function UsedWith(allLines: seq<seq<char>>, areas: seq<Area>, split: SplitFn): set<nat> {
    if areas == [] then {}
    else
      var a := areas[|areas| - 1];
      UsedWith(allLines, areas[..|areas| - 1], split) + NumberSet(split(Slice(allLines, a.start, a.end)))
  }

  /** all_questions: `{num: lines for num, lines in blocks}`, so a later block overwrites an earlier one. */
  function QuestionMap(qs: seq<Segmenter.Block>): map<nat, seq<seq<char>>> {
    if qs == [] then map[]
    else
      var last := qs[|qs| - 1];
      QuestionMap(qs[..|qs| - 1])[last.number := last.lines]
  }

  function OrphanQuestions(questions: map<nat, seq<seq<char>>>, orphans: seq<nat>, fmt: FormatFn): (r: seq<seq<char>>)
    requires forall k :: 0 <= k < |orphans| ==> orphans[k] in questions
    ensures |r| == |orphans|
  {
    if orphans == [] then []
    else
      var n := orphans[|orphans| - 1];
      OrphanQuestions(questions, orphans[..|orphans| - 1], fmt) + [fmt(n, questions[n])]
  }

  function OrphanParts(questions: map<nat, seq<seq<char>>>, orphans: seq<nat>, fmt: FormatFn): seq<seq<char>>
    requires forall k :: 0 <= k < |orphans| ==> orphans[k] in questions
  {
    if orphans == [] then [] else ["# Questões", "", "---", ""] + OrphanQuestions(questions, orphans, fmt)
  }

  /** orphans: the numbers found in the whole text that no area formatted, in increasing order. */
  ghost function Orphans(questions: map<nat, seq<seq<char>>>, used: set<nat>): (r: seq<nat>)
    ensures forall k :: 0 <= k < |r| ==> r[k] in questions && r[k] !in used
  {
    var r := SortedOf(questions.Keys - used);
    assert forall k :: 0 <= k < |r| ==> r[k] in r;
    r
  }

  /** The parts extract_exam joins with newlines. */
  ghost function PartsWith(fileName: seq<char>, allLines: seq<seq<char>>, meta: Meta, areas: seq<Area>,
                           split: SplitFn, fmt: FormatFn): seq<seq<char>> {
    var questions := QuestionMap(split(allLines));
    HeaderParts(meta, fileName) + SectionsWith(allLines, areas, split, fmt)
    + OrphanParts(questions, Orphans(questions, UsedWith(allLines, areas, split)), fmt)
  }

  ghost function ExamParts(fileName: seq<char>, allLines: seq<seq<char>>): seq<seq<char>> {
    PartsWith(fileName, allLines, MetaSpec(allLines), AreaSpec(allLines), Segmenter.SplitSpec, Formatter.FormatSpec)
  }

  /** What extract_exam returns for the given file name and pages. */
  ghost function ExamSpec(fileName: seq<char>, pages: seq<Page>): seq<char> {
    JoinWith(ExamParts(fileName, AllLines(pages)), "\n")
  }

  /** The reading loop of extract_exam: each page's lines, cleaned, appended to all_lines. */
  method ReadAllLines(pages: seq<Page>) returns (allLines: seq<seq<char>>)
    ensures allLines == AllLines(pages)
  {
    allLines := [];
    for p := 0 to |pages|
      invariant allLines == AllLines(pages[..p])
    {
      assert pages[..p + 1][..p] == pages[..p];
      var pageLines := Layout.ExtractPageLines(pages[p].words, pages[p].width);
      var cleaned := Cleaning.CleanLines(pageLines);
      allLines := allLines + cleaned;
    }
    assert pages[..|pages|] == pages;
  }

  lemma QuestionPartsSnoc(qs: seq<Segmenter.Block>, q: nat, fmt: FormatFn)
    requires q < |qs|
    ensures QuestionParts(qs[..q + 1], fmt) == QuestionParts(qs[..q], fmt) + [fmt(qs[q].number, qs[q].lines)]
    ensures NumberSet(qs[..q + 1]) == NumberSet(qs[..q]) + {qs[q].number}
  {
    assert qs[..q + 1][..q] == qs[..q];
  }

  /** The inner loop over an area's questions: each one formatted, in order. */
  method EmitQuestions(qs: seq<Segmenter.Block>) returns (parts: seq<seq<char>>, nums: set<nat>)
    ensures parts == QuestionParts(qs, Formatter.FormatSpec)
    ensures nums == NumberSet(qs)
  {
    parts, nums := [], {};
    for q := 0 to |qs|
      invariant parts == QuestionParts(qs[..q], Formatter.FormatSpec)
      invariant nums == NumberSet(qs[..q])
    {
      QuestionPartsSnoc(qs, q, Formatter.FormatSpec);
      var md := Formatter.FormatQuestionToMarkdown(qs[q].number, qs[q].lines);
      parts := parts + [md];
      nums := nums + {qs[q].number};
    }
    assert qs[..|qs|] == qs;
  }

  /** One turn of the loop over the areas: nothing when the area holds no question. */
  method EmitArea(allLines: seq<seq<char>>, area: Area) returns (areaParts: seq<seq<char>>, nums: set<nat>)
    ensures areaParts == AreaParts(allLines, area, Segmenter.SplitSpec, Formatter.FormatSpec)
    ensures nums == NumberSet(Segmenter.SplitSpec(Slice(allLines, area.start, area.end)))
  {
    var areaLines := Slice(allLines, area.start, area.end);
    var areaQs := Segmenter.SplitIntoQuestions(areaLines);
    if areaQs == [] {
      return [], {};
    }
    var questionParts;
    questionParts, nums := EmitQuestions(areaQs);
    areaParts := AreaHeading(area.name, areaLines) + questionParts;
  }

  lemma SectionsSnoc(allLines: seq<seq<char>>, areas: seq<Area>, a: nat, split: SplitFn, fmt: FormatFn)
    requires a < |areas|
    ensures SectionsWith(allLines, areas[..a + 1], split, fmt) == SectionsWith(allLines, areas[..a], split, fmt) + AreaParts(allLines, areas[a], split, fmt)
    ensures UsedWith(allLines, areas[..a + 1], split) == UsedWith(allLines, areas[..a], split) + NumberSet(split(Slice(allLines, areas[a].start, areas[a].end)))
  {
    assert areas[..a + 1][..a] == areas[..a];
  }

  /** The loop over the areas, collecting their parts and the numbers they used. */
  method EmitSections(allLines: seq<seq<char>>, boundaries: seq<Area>) returns (sections: seq<seq<char>>, used: set<nat>)
    ensures sections == SectionsWith(allLines, boundaries, Segmenter.SplitSpec, Formatter.FormatSpec)
    ensures used == UsedWith(allLines, boundaries, Segmenter.SplitSpec)
  {
    sections, used := [], {};
    for a := 0 to |boundaries|
      invariant sections == SectionsWith(allLines, boundaries[..a], Segmenter.SplitSpec, Formatter.FormatSpec)
      invariant used == UsedWith(allLines, boundaries[..a], Segmenter.SplitSpec)
    {
      SectionsSnoc(allLines, boundaries, a, Segmenter.SplitSpec, Formatter.FormatSpec);
      var areaParts, nums := EmitArea(allLines, boundaries[a]);
      sections := sections + areaParts;
      used := used + nums;
    }
    assert boundaries[..|boundaries|] == boundaries;
  }

  /** `sorted(set(all_questions.keys()) - used)`. */
  method OrphanNumbers(questions: map<nat, seq<seq<char>>>, used: set<nat>) returns (orphans: seq<nat>)
    ensures orphans == Orphans(questions, used)
  {
    var sorted := SortSet(questions.Keys - used);
    assert sorted == Orphans(questions, used);
    orphans := sorted;
  }

  /** The orphan section: a heading, then each orphan's section in increasing order. */
  method EmitOrphans(questions: map<nat, seq<seq<char>>>, orphans: seq<nat>) returns (orphanParts: seq<seq<char>>)
    requires forall k :: 0 <= k < |orphans| ==> orphans[k] in questions
    ensures orphanParts == OrphanParts(questions, orphans, Formatter.FormatSpec)
  {
    if orphans == [] {
      return [];
    }
    var sections := FormatOrphans(questions, orphans);
    orphanParts := ["# Questões", "", "---", ""] + sections;
  }

  lemma OrphanQuestionsSnoc(questions: map<nat, seq<seq<char>>>, orphans: seq<nat>, k: nat, fmt: FormatFn)
    requires k < |orphans| && forall j :: 0 <= j < |orphans| ==> orphans[j] in questions
    ensures OrphanQuestions(questions, orphans[..k + 1], fmt) == OrphanQuestions(questions, orphans[..k], fmt) + [fmt(orphans[k], questions[orphans[k]])]
  {
    assert orphans[..k + 1][..k] == orphans[..k];
  }

  /** The loop of the orphan section. */
  method FormatOrphans(questions: map<nat, seq<seq<char>>>, orphans: seq<nat>) returns (parts: seq<seq<char>>)
    requires forall k :: 0 <= k < |orphans| ==> orphans[k] in questions
    ensures parts == OrphanQuestions(questions, orphans, Formatter.FormatSpec)
  {
    parts := [];
    for k := 0 to |orphans|
      invariant parts == OrphanQuestions(questions, orphans[..k], Formatter.FormatSpec)
    {
      OrphanQuestionsSnoc(questions, orphans, k, Formatter.FormatSpec);
      var num := orphans[k];
      var md := Formatter.FormatQuestionToMarkdown(num, questions[num]);
      parts := parts + [md];
    }
    assert orphans[..|orphans|] == orphans;
  }

  /** extract_exam, with the file name and the pages' words as inputs. */
  method ExtractExam(fileName: seq<char>, pages: seq<Page>) returns (out: seq<char>)
    ensures out == ExamSpec(fileName, pages)
  {
    var allLines := ReadAllLines(pages);
    var meta := ExtractMetadata(allLines);
    var boundaries := FindAreaBoundaries(allLines);
    var blocks := Segmenter.SplitIntoQuestions(allLines);
    var allQuestions := QuestionMap(blocks);
    var header := HeaderParts(meta, fileName);
    var sections, used := EmitSections(allLines, boundaries);
    var orphans := OrphanNumbers(allQuestions, used);
    var tail := EmitOrphans(allQuestions, orphans);
    out := JoinWith(header + sections + tail, "\n");
  }

  // ---------------------------------------------------------------------------
  // What the assembly promises
  // ---------------------------------------------------------------------------

  lemma PartsHead(fileName: seq<char>, allLines: seq<seq<char>>, meta: Meta, areas: seq<Area>, split: SplitFn, fmt: FormatFn)
    ensures var parts := PartsWith(fileName, allLines, meta, areas, split, fmt);
      parts != [] && parts[0] == "# " + meta.titulo
  {
  }

  /** The document opens with the fixed title line. */
  lemma ExamStartsWithTitle(fileName: seq<char>, pages: seq<Page>)
    ensures var t, out := "# " + DefaultTitle, ExamSpec(fileName, pages);
      |out| >= |t| && out[..|t|] == t
  {
    var allLines := AllLines(pages);
    var meta := MetaSpec(allLines);
    TitleNeverChanges(Take(allLines, 60), FactsOf);
    assert meta.titulo == DefaultTitle;
    var parts := ExamParts(fileName, allLines);
    PartsHead(fileName, allLines, meta, AreaSpec(allLines), Segmenter.SplitSpec, Formatter.FormatSpec);
    JoinStartsWith(parts, "\n");
  }

  /** The dict keeps one entry per number found, holding the lines of the last block with that number. */
  lemma {:induction false} QuestionMapLast(qs: seq<Segmenter.Block>)
    ensures forall n :: n in QuestionMap(qs) <==> exists k :: 0 <= k < |qs| && qs[k].number == n
    ensures forall k :: 0 <= k < |qs| && (forall j :: k < j < |qs| ==> qs[j].number != qs[k].number)
                        ==> QuestionMap(qs)[qs[k].number] == qs[k].lines
    decreases |qs|
  {
    if qs != [] {
      var init, last := qs[..|qs| - 1], qs[|qs| - 1];
      QuestionMapLast(init);
      assert forall k :: 0 <= k < |init| ==> init[k] == qs[k];
      var m := QuestionMap(qs);
      assert m == QuestionMap(init)[last.number := last.lines];
      forall n ensures n in m <==> exists k :: 0 <= k < |qs| && qs[k].number == n {
        if n != last.number && n in m {
          var k :| 0 <= k < |init| && init[k].number == n;
          assert qs[k].number == n;
        }
      }
      forall k | 0 <= k < |qs| && (forall j :: k < j < |qs| ==> qs[j].number != qs[k].number)
        ensures m[qs[k].number] == qs[k].lines
      {
        if k < |qs| - 1 {
          assert qs[|qs| - 1].number != qs[k].number;
          assert forall j :: k < j < |init| ==> init[j].number != init[k].number;
        }
      }
    }
  }

  /**
   * No question is lost: every number found in the whole text is either one
   * an area formatted or an orphan, the orphans are not among those, and
   * they come in increasing order.
   */
  lemma NoQuestionLost(questions: map<nat, seq<seq<char>>>, used: set<nat>)
    ensures var orphans := Orphans(questions, used);
      && (forall n :: n in questions ==> n in used || n in orphans)
      && (forall n :: n in orphans ==> n in questions && n !in used)
      && StrictlyIncreasing(orphans)
  {
  }

  lemma {:induction false} QuestionPartsAt(qs: seq<Segmenter.Block>, fmt: FormatFn)
    ensures forall k :: 0 <= k < |qs| ==> QuestionParts(qs, fmt)[k] == fmt(qs[k].number, qs[k].lines)
    decreases |qs|
  {
    if qs != [] {
      var init := qs[..|qs| - 1];
      QuestionPartsAt(init, fmt);
      assert forall k :: 0 <= k < |init| ==> init[k] == qs[k];
    }
  }

  lemma HeadingLength(name: seq<char>, areaLines: seq<seq<char>>)
    ensures |AreaHeading(name, areaLines)| >= 4
  {
  }

  /** An area appends nothing exactly when it holds no question. */
  lemma AreaPartsEmpty(allLines: seq<seq<char>>, a: Area, split: SplitFn, fmt: FormatFn)
    ensures AreaParts(allLines, a, split, fmt) == [] <==> split(Slice(allLines, a.start, a.end)) == []
  {
    HeadingLength(a.name, Slice(allLines, a.start, a.end));
  }

  /** Otherwise it appends its heading, then the section of each of its questions in the order the split gives them. */
  lemma AreaPartsLayout(allLines: seq<seq<char>>, a: Area, split: SplitFn, fmt: FormatFn)
    requires split(Slice(allLines, a.start, a.end)) != []
    ensures var qs, r := split(Slice(allLines, a.start, a.end)), AreaParts(allLines, a, split, fmt);
      var h := AreaHeading(a.name, Slice(allLines, a.start, a.end));
      |r| == |h| + |qs| && r[..|h|] == h
      && forall k :: 0 <= k < |qs| ==> r[|h| + k] == fmt(qs[k].number, qs[k].lines)
  {
    var areaLines := Slice(allLines, a.start, a.end);
    var qs := split(areaLines);
    var h := AreaHeading(a.name, areaLines);
    var body := QuestionParts(qs, fmt);
    QuestionPartsAt(qs, fmt);
    var r := AreaParts(allLines, a, split, fmt);
    assert r == h + body;
    AfterPrefix(h, body);
  }

  lemma AfterPrefix<T>(h: seq<T>, body: seq<T>)
    ensures (h + body)[..|h|] == h
    ensures forall k :: 0 <= k < |body| ==> (h + body)[|h| + k] == body[k]
  {
  }

  lemma {:induction false} OrphanQuestionsAt(questions: map<nat, seq<seq<char>>>, orphans: seq<nat>, fmt: FormatFn)
    requires forall k :: 0 <= k < |orphans| ==> orphans[k] in questions
    ensures forall k :: 0 <= k < |orphans| ==> OrphanQuestions(questions, orphans, fmt)[k] == fmt(orphans[k], questions[orphans[k]])
    decreases |orphans|
  {
    if orphans != [] {
      var init := orphans[..|orphans| - 1];
      assert forall k :: 0 <= k < |init| ==> init[k] == orphans[k];
      OrphanQuestionsAt(questions, init, fmt);
    }
  }

  // ---------------------------------------------------------------------------
  // Every question found in the text gets a section: in an area, or as an orphan
  // ---------------------------------------------------------------------------

  /** A number is used exactly when some area's split holds a block with it. */
  lemma {:induction false} UsedWithHas(allLines: seq<seq<char>>, areas: seq<Area>, split: SplitFn)
    ensures forall n :: n in UsedWith(allLines, areas, split) <==>
      exists i :: 0 <= i < |areas| && n in NumberSet(split(Slice(allLines, areas[i].start, areas[i].end)))
    decreases |areas|
  {
    if areas != [] {
      var init := areas[..|areas| - 1];
      UsedWithHas(allLines, init, split);
      assert forall i :: 0 <= i < |init| ==> init[i] == areas[i];
    }
  }

  /** The section of each block of each area is among the area sections. */
  lemma {:induction false} AreaSectionIn(allLines: seq<seq<char>>, areas: seq<Area>, split: SplitFn, fmt: FormatFn, i: nat, k: nat)
    requires i < |areas|
    requires k < |split(Slice(allLines, areas[i].start, areas[i].end))|
    ensures var q := split(Slice(allLines, areas[i].start, areas[i].end))[k];
      fmt(q.number, q.lines) in SectionsWith(allLines, areas, split, fmt)
    decreases |areas|
  {
    var init := areas[..|areas| - 1];
    if i == |areas| - 1 {
      var a := areas[i];
      AreaPartsLayout(allLines, a, split, fmt);
      var h := AreaHeading(a.name, Slice(allLines, a.start, a.end));
      assert AreaParts(allLines, a, split, fmt)[|h| + k] in AreaParts(allLines, a, split, fmt);
    } else {
      assert init[i] == areas[i];
      AreaSectionIn(allLines, init, split, fmt, i, k);
    }
  }

  /** The section of each orphan is among the orphan parts. */
  lemma OrphanSectionIn(questions: map<nat, seq<seq<char>>>, orphans: seq<nat>, fmt: FormatFn, n: nat)
    requires forall k :: 0 <= k < |orphans| ==> orphans[k] in questions
    requires n in orphans
    ensures n in questions && fmt(n, questions[n]) in OrphanParts(questions, orphans, fmt)
  {
    var k :| 0 <= k < |orphans| && orphans[k] == n;
    OrphanQuestionsAt(questions, orphans, fmt);
    var body := OrphanQuestions(questions, orphans, fmt);
    AfterPrefix(["# Questões", "", "---", ""], body);
    assert OrphanParts(questions, orphans, fmt)[4 + k] == body[k];
  }

  /**
   * Every question number found in the whole text gets a section in the
   * document: if an area used it, the section of that area's block with the
   * number is among the parts; otherwise it is an orphan, and its section,
   * formatted from the whole text's last block with that number, is.
   */
  lemma EveryQuestionPlaced(fileName: seq<char>, allLines: seq<seq<char>>, meta: Meta, areas: seq<Area>,
                            split: SplitFn, fmt: FormatFn)
    ensures var questions, used := QuestionMap(split(allLines)), UsedWith(allLines, areas, split);
      var parts := PartsWith(fileName, allLines, meta, areas, split, fmt);
      forall n :: n in questions ==>
        if n in used then
          exists i, k :: 0 <= i < |areas| && 0 <= k < |split(Slice(allLines, areas[i].start, areas[i].end))|
            && split(Slice(allLines, areas[i].start, areas[i].end))[k].number == n
            && fmt(n, split(Slice(allLines, areas[i].start, areas[i].end))[k].lines) in parts
        else fmt(n, questions[n]) in parts
  {
    var questions, used := QuestionMap(split(allLines)), UsedWith(allLines, areas, split);
    var parts := PartsWith(fileName, allLines, meta, areas, split, fmt);
    var head := HeaderParts(meta, fileName);
    var sections := SectionsWith(allLines, areas, split, fmt);
    var orphans := Orphans(questions, used);
    var tail := OrphanParts(questions, orphans, fmt);
    assert parts == head + sections + tail;
    UsedWithHas(allLines, areas, split);
    forall n | n in questions
      ensures if n in used then
          exists i, k :: 0 <= i < |areas| && 0 <= k < |split(Slice(allLines, areas[i].start, areas[i].end))|
            && split(Slice(allLines, areas[i].start, areas[i].end))[k].number == n
            && fmt(n, split(Slice(allLines, areas[i].start, areas[i].end))[k].lines) in parts
        else fmt(n, questions[n]) in parts
    {
      if n in used {
        var i :| 0 <= i < |areas| && n in NumberSet(split(Slice(allLines, areas[i].start, areas[i].end)));
        var qs := split(Slice(allLines, areas[i].start, areas[i].end));
        var k :| 0 <= k < |qs| && qs[k].number == n;
        AreaSectionIn(allLines, areas, split, fmt, i, k);
        assert fmt(n, qs[k].lines) in parts;
      } else {
        NoQuestionLost(questions, used);
        OrphanSectionIn(questions, orphans, fmt, n);
      }
    }
  }
}
