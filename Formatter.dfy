/**
 * format_question_to_markdown and is_reference_line (teste2.py:297-396):
 * the lines of one question, after the lettered choices are merged, become
 * a Markdown section: a title, paragraphs, quoted references, bold
 * sub-headers and a list of choices, with runs of blank lines collapsed.
 *
 * The Markdown list is kept as typed lines (MdLine) and rendered at the end;
 * a line counts as blank exactly when it renders as the empty string, which
 * is the test the source applies to its list of strings.
 */
module Formatter {
  import opened Base
  import opened Patterns
  import Alternatives

  datatype MdLine =
    | Title(num: nat)
    | Blank
    | Bold(text: seq<char>)
    | Para(text: seq<char>)
    | Quote(text: seq<char>)
    | Choice(letter: char, text: seq<char>)

  function Render(m: MdLine): seq<char> {
    match m
    case Title(n) => "## QUESTÃO " + Pad2(n)
    case Blank => ""
    case Bold(t) => "**" + t + "**"
    case Para(t) => t
    case Quote(t) => "> *" + t + "*"
    case Choice(l, t) => "- **" + [l] + "** " + t
  }

  /** A line of md that renders as the empty string (the source's `line == ""`). */
  predicate IsBlankLine(m: MdLine) { m.Blank? || (m.Para? && m.text == []) }

  lemma BlankIsEmptyRender(m: MdLine)
    ensures IsBlankLine(m) <==> Render(m) == []
  {
    match m
    case Title(n) => assert |Render(m)| >= 11;
    case Bold(t) => assert |Render(m)| >= 4;
    case Quote(t) => assert |Render(m)| >= 4;
    case Choice(l, t) => assert |Render(m)| >= 7;
    case _ =>
  }

  /**
   * is_reference_line: a surname in capitals, or one of the citation markers.
   * Every marker ends in a colon, so a line without a colon is a reference
   * exactly when it opens with a surname in capitals and a comma or full stop.
   */
  predicate IsReferenceLine(line: seq<char>): (r: bool)
    ensures (forall k :: 0 <= k < |Strip(line)| ==> Strip(line)[k] != ':') ==> (r <==> StartsWithAuthor(Strip(line)))
  {
    var s := Strip(line);
    NoColonNoCitation(s);
    StartsWithAuthor(s) || ContainsCitation(s)
  }

  /** Every citation marker ends in a colon. */
  lemma CitationHasColon(s: seq<char>, p: nat)
    requires CitationAt(s, p)
    ensures exists k :: p <= k < |s| && s[k] == ':'
  {
    if LitAt(s, p, "Disponível em:") {
      assert s[p + 13] == s[p..p + 14][13];
    } else if LitAt(s, p, "Acesso em:") {
      assert s[p + 9] == s[p..p + 10][9];
    } else if LitAt(s, p, "São Paulo:") {
      assert s[p + 9] == s[p..p + 10][9];
    } else if LitAt(s, p, "Rio de Janeiro:") {
      assert s[p + 14] == s[p..p + 15][14];
    } else if LitAt(s, p, "In:") {
      assert s[p + 2] == s[p..p + 3][2];
    } else {
      assert s[p + 4] == s[p..p + 5][4];
    }
  }

  /** A text without a colon holds no citation marker. */
  lemma NoColonNoCitation(s: seq<char>)
    ensures (forall k :: 0 <= k < |s| ==> s[k] != ':') ==> !ContainsCitation(s)
  {
    if forall k :: 0 <= k < |s| ==> s[k] != ':' {
      forall p | 0 <= p < |s|
        ensures !CitationAt(s, p)
      {
        if CitationAt(s, p) {
          CitationHasColon(s, p);
        }
      }
    }
  }

  /** A surname in capitals opening a line marks it as a reference. */
  lemma SurnameLineIsReference()
    ensures IsReferenceLine("SILVA, J.")
  {
    var s := "SILVA, J.";
    assert !IsSpace(s[0]) && !IsSpace(s[|s| - 1]);
    assert LStrip(s) == s;
    assert RStrip(s) == s;
    assert SpanEnd(s, 5, IsAuthorCap) == 5;
    assert SpanEnd(s, 4, IsAuthorCap) == 5;
    assert SpanEnd(s, 3, IsAuthorCap) == 5;
    assert SpanEnd(s, 2, IsAuthorCap) == 5;
    assert SpanEnd(s, 1, IsAuthorCap) == 5;
    assert SpanEnd(s, 0, IsAuthorCap) == 5;
  }

  /** What the formatting loop asks about a line. */
  datatype View = View(
    text: seq<char>,            // the stripped line
    subHeader: bool,            // TEXTO I, QUADRO, ...
    skipped: bool,              // an area header or a "Questões de N a M" line
    choice: Option<seq<char>>,  // group 2 of ALTERNATIVA_FULL_RE
    reference: bool,            // is_reference_line
    lowerStart: bool)           // starts with a lower-case letter or '('

  function ViewOf(line: seq<char>): View {
    var s := Strip(line);
    View(s, IsSubHeader(s), ContainsAreaHeader(s) || ContainsRange(s), FullChoiceText(s),
         IsReferenceLine(s), StartsLowerOrParen(s))
  }

  // ---------------------------------------------------------------------------
  // The loop's state and one turn of it
  // ---------------------------------------------------------------------------

  datatype Fmt = Fmt(md: seq<MdLine>, paragraph: seq<seq<char>>, reference: seq<seq<char>>, inAlts: bool)

  /** flush_paragraph. */
  function FlushParagraph(st: Fmt): Fmt {
    if st.paragraph == [] then st
    else
      var text := Strip(JoinWith(st.paragraph, " "));
      st.(md := if text != [] then st.md + [Para(text)] + [Blank] else st.md, paragraph := [])
  }

  /** flush_reference. */
  function FlushReference(st: Fmt): Fmt {
    if st.reference == [] then st
    else
      var r := CollapseSpaces(Strip(JoinWith(st.reference, " ")));
      st.(md := st.md + [Quote(r)] + [Blank], reference := [])
  }

  function FlushBoth(st: Fmt): Fmt {
    FlushReference(FlushParagraph(st))
  }

  /** md after a full choice: a blank line opens the list when it is not yet open. */
  function OpenList(md: seq<MdLine>, inAlts: bool): seq<MdLine> {
    if !inAlts && md != [] && !IsBlankLine(md[|md| - 1]) then md + [Blank] else md
  }

  /** One turn of the loop over the merged lines. */
  function Step(st: Fmt, v: View): Fmt {
    var s := v.text;
    if s == [] then st
    else if v.subHeader then
      var t := FlushBoth(st);
      t.(md := t.md + [Bold(s)] + [Blank], inAlts := false)
    else if v.skipped then st
    else if v.choice.Some? then
      var t := FlushBoth(st);
      t.(md := OpenList(t.md, t.inAlts) + [Choice(s[0], Strip(v.choice.value))], inAlts := true)
    else if v.reference && !st.inAlts then
      var t := FlushParagraph(st);
      t.(reference := t.reference + [s])
    else if st.reference != [] && (v.reference || v.lowerStart) then
      st.(reference := st.reference + [s])
    else if st.reference != [] then
      var t := FlushReference(st);
      t.(paragraph := t.paragraph + [s], inAlts := false)
    else
      st.(paragraph := st.paragraph + [s])
  }

  function Start(num: nat): Fmt {
    Fmt([Title(num), Blank], [], [], false)
  }

  /** The loop's state after the given lines. */
  function FmtWith(lines: seq<seq<char>>, view: seq<char> -> View, num: nat): Fmt {
    if lines == [] then Start(num)
    else Step(FmtWith(lines[..|lines| - 1], view, num), view(lines[|lines| - 1]))
  }

  // ---------------------------------------------------------------------------
  // Collapsing runs of blank lines, and the final text
  // ---------------------------------------------------------------------------

  /** The dedup loop: a blank line right after a blank line of md is dropped. */
  function Dedup(md: seq<MdLine>): seq<MdLine> {
    if md == [] then []
    else
      var init, last := md[..|md| - 1], md[|md| - 1];
      if IsBlankLine(last) && init != [] && IsBlankLine(init[|init| - 1]) then Dedup(init)
      else Dedup(init) + [last]
  }

  function RenderAll(md: seq<MdLine>): (r: seq<seq<char>>)
    ensures |r| == |md|
  {
    if md == [] then [] else RenderAll(md[..|md| - 1]) + [Render(md[|md| - 1])]
  }

  /** The Markdown lines, after the final flushes and the dedup loop. */
  function FormatLinesWith(lines: seq<seq<char>>, view: seq<char> -> View, num: nat): seq<MdLine> {
    Dedup(FlushBoth(FmtWith(lines, view, num)).md)
  }

  function FormatLines(num: nat, rawLines: seq<seq<char>>): seq<MdLine> {
    FormatLinesWith(Alternatives.MergeSpec(rawLines), ViewOf, num)
  }

  /** What format_question_to_markdown returns: `"\n".join(deduped) + "\n"`. */
  function FormatSpec(num: nat, rawLines: seq<seq<char>>): seq<char> {
    JoinWith(RenderAll(FormatLines(num, rawLines)), "\n") + "\n"
  }

  /** The dedup loop of format_question_to_markdown. */
  method RemoveBlankRuns(md: seq<MdLine>) returns (deduped: seq<MdLine>)
    ensures deduped == Dedup(md)
  {
    deduped := [];
    var prevBlank := false;
    for i := 0 to |md|
      invariant deduped == Dedup(md[..i])
      invariant prevBlank == (i > 0 && IsBlankLine(md[i - 1]))
    {
      assert md[..i + 1][..i] == md[..i];
      var blank := IsBlankLine(md[i]);
      if blank && prevBlank {
        continue;
      }
      deduped := deduped + [md[i]];
      prevBlank := blank;
    }
    assert md[..|md|] == md;
  }

  lemma FmtWithSnoc(lines: seq<seq<char>>, i: nat, view: seq<char> -> View, num: nat)
    requires i < |lines|
    ensures FmtWith(lines[..i + 1], view, num) == Step(FmtWith(lines[..i], view, num), view(lines[i]))
  {
    assert lines[..i + 1][..i] == lines[..i];
  }

  /** format_question_to_markdown. */
  method FormatQuestionToMarkdown(num: nat, rawLines: seq<seq<char>>) returns (out: seq<char>)
    ensures out == FormatSpec(num, rawLines)
  {
    var lines := Alternatives.MergeAlternativas(rawLines);
    var md: seq<MdLine> := [Title(num), Blank];
    var paragraph: seq<seq<char>> := [];
    var reference: seq<seq<char>> := [];
    var inAlts := false;
    for i := 0 to |lines|
      invariant Fmt(md, paragraph, reference, inAlts) == FmtWith(lines[..i], ViewOf, num)
    {
      FmtWithSnoc(lines, i, ViewOf, num);
      var v := ViewOf(lines[i]);
      var s := v.text;
      if s == [] {
        continue;
      }
      if v.subHeader {
        var t := FlushBoth(Fmt(md, paragraph, reference, inAlts));
        md, paragraph, reference := t.md + [Bold(s)] + [Blank], t.paragraph, t.reference;
        inAlts := false;
        continue;
      }
      if v.skipped {
        continue;
      }
      if v.choice.Some? {
        var t := FlushBoth(Fmt(md, paragraph, reference, inAlts));
        md, paragraph, reference := t.md, t.paragraph, t.reference;
        if !inAlts {
          inAlts := true;
          if md != [] && !IsBlankLine(md[|md| - 1]) {
            md := md + [Blank];
          }
        }
        md := md + [Choice(s[0], Strip(v.choice.value))];
        continue;
      }
      if v.reference && !inAlts {
        var t := FlushParagraph(Fmt(md, paragraph, reference, inAlts));
        md, paragraph := t.md, t.paragraph;
        reference := reference + [s];
        continue;
      }
      if reference != [] {
        if v.reference || v.lowerStart {
          reference := reference + [s];
          continue;
        } else {
          var t := FlushReference(Fmt(md, paragraph, reference, inAlts));
          md, reference := t.md, t.reference;
          inAlts := false;
        }
      }
      paragraph := paragraph + [s];
    }
    assert lines[..|lines|] == lines;
    var t := FlushBoth(Fmt(md, paragraph, reference, inAlts));
    var deduped := RemoveBlankRuns(t.md);
    out := JoinWith(RenderAll(deduped), "\n") + "\n";
  }

  // ---------------------------------------------------------------------------
  // What the loop keeps: the title first, every choice opening or continuing a
  // list, and the sub-headers and choices in the order of the input
  // ---------------------------------------------------------------------------

  /** The lines that carry the structure of the question: sub-headers and choices. */
  predicate IsItem(m: MdLine) { m.Bold? || m.Choice? }

  /** The structural line a view produces, if any. */
  function ItemOf(v: View): seq<MdLine> {
    if v.text == [] then []
    else if v.subHeader then [Bold(v.text)]
    else if v.skipped then []
    else if v.choice.Some? then [Choice(v.text[0], Strip(v.choice.value))]
    else []
  }

  function ItemsWith(lines: seq<seq<char>>, view: seq<char> -> View): seq<MdLine> {
    if lines == [] then [] else ItemsWith(lines[..|lines| - 1], view) + ItemOf(view(lines[|lines| - 1]))
  }

  /** Every choice follows another choice or a blank line, so it starts or continues a list. */
  predicate ChoicesSeparated(md: seq<MdLine>) {
    forall k :: 0 < k < |md| && md[k].Choice? ==> md[k - 1].Choice? || IsBlankLine(md[k - 1])
  }

  predicate LastOpensList(md: seq<MdLine>) {
    md != [] && (md[|md| - 1].Choice? || IsBlankLine(md[|md| - 1]))
  }

  predicate FmtInv(st: Fmt, num: nat) {
    && |st.md| >= 2 && st.md[0] == Title(num)
    && (st.reference != [] ==> !st.inAlts)
    && (st.inAlts ==> LastOpensList(st.md))
    && ChoicesSeparated(st.md)
  }

  lemma FilterSnoc<T>(s: seq<T>, x: T, p: T -> bool)
    ensures Filter(s + [x], p) == Filter(s, p) + (if p(x) then [x] else [])
  {
    assert (s + [x])[..|s|] == s;
  }

  /** Appending a line keeps the invariant's parts about md. */
  lemma SnocLine(md: seq<MdLine>, x: MdLine)
    requires |md| >= 1 && ChoicesSeparated(md)
    requires x.Choice? ==> LastOpensList(md)
    ensures ChoicesSeparated(md + [x]) && (md + [x])[0] == md[0]
    ensures Filter(md + [x], IsItem) == Filter(md, IsItem) + (if IsItem(x) then [x] else [])
  {
    FilterSnoc(md, x, IsItem);
    forall k | 0 < k < |md + [x]| && (md + [x])[k].Choice?
      ensures (md + [x])[k - 1].Choice? || IsBlankLine((md + [x])[k - 1])
    {
      if k < |md| {
        assert (md + [x])[k] == md[k] && (md + [x])[k - 1] == md[k - 1];
      } else {
        assert (md + [x])[k - 1] == md[|md| - 1];
      }
    }
  }

  /** Appending a line that is neither a sub-header nor a choice, then a blank line. */
  lemma SnocPlainThenBlank(md: seq<MdLine>, x: MdLine)
    requires |md| >= 1 && ChoicesSeparated(md) && !IsItem(x)
    ensures var md' := md + [x] + [Blank];
      ChoicesSeparated(md') && md'[0] == md[0] && LastOpensList(md') && |md'| == |md| + 2
      && Filter(md', IsItem) == Filter(md, IsItem)
  {
    SnocLine(md, x);
    SnocLine(md + [x], Blank);
  }

  /** A flush adds no structural line, keeps the invariant, and leaves md ending a list-opener when it adds anything. */
  lemma FlushParagraphKeeps(st: Fmt, num: nat)
    requires FmtInv(st, num)
    ensures var t := FlushParagraph(st);
      FmtInv(t, num) && t.reference == st.reference && t.inAlts == st.inAlts && t.paragraph == []
      && Filter(t.md, IsItem) == Filter(st.md, IsItem)
  {
    if st.paragraph != [] {
      var text := Strip(JoinWith(st.paragraph, " "));
      if text != [] {
        SnocPlainThenBlank(st.md, Para(text));
      }
    }
  }

  lemma FlushReferenceKeeps(st: Fmt, num: nat)
    requires FmtInv(st, num)
    ensures var t := FlushReference(st);
      FmtInv(t, num) && t.paragraph == st.paragraph && t.inAlts == st.inAlts && t.reference == []
      && Filter(t.md, IsItem) == Filter(st.md, IsItem)
  {
    if st.reference != [] {
      SnocPlainThenBlank(st.md, Quote(CollapseSpaces(Strip(JoinWith(st.reference, " ")))));
    }
  }

  lemma FlushBothKeeps(st: Fmt, num: nat)
    requires FmtInv(st, num)
    ensures var t := FlushBoth(st);
      FmtInv(t, num) && t.inAlts == st.inAlts && t.paragraph == [] && t.reference == []
      && Filter(t.md, IsItem) == Filter(st.md, IsItem)
  {
    FlushParagraphKeeps(st, num);
    FlushReferenceKeeps(FlushParagraph(st), num);
  }

  lemma StepSubHeader(st: Fmt, v: View, num: nat)
    requires FmtInv(st, num) && v.text != [] && v.subHeader
    ensures FmtInv(Step(st, v), num)
    ensures Filter(Step(st, v).md, IsItem) == Filter(st.md, IsItem) + ItemOf(v)
  {
    var t := FlushBoth(st);
    FlushBothKeeps(st, num);
    SnocLine(t.md, Bold(v.text));
    SnocLine(t.md + [Bold(v.text)], Blank);
  }

  lemma StepChoice(st: Fmt, v: View, num: nat)
    requires FmtInv(st, num) && v.text != [] && !v.subHeader && !v.skipped && v.choice.Some?
    ensures FmtInv(Step(st, v), num)
    ensures Filter(Step(st, v).md, IsItem) == Filter(st.md, IsItem) + ItemOf(v)
  {
    var t := FlushBoth(st);
    FlushBothKeeps(st, num);
    var listed := OpenList(t.md, t.inAlts);
    var c := Choice(v.text[0], Strip(v.choice.value));
    if listed != t.md {
      SnocLine(t.md, Blank);
    }
    assert Filter(listed, IsItem) == Filter(st.md, IsItem);
    assert LastOpensList(listed);
    SnocLine(listed, c);
    assert Step(st, v).md == listed + [c];
    assert ItemOf(v) == [c];
  }

  lemma StepText(st: Fmt, v: View, num: nat)
    requires FmtInv(st, num) && !(v.text != [] && (v.subHeader || (!v.skipped && v.choice.Some?)))
    ensures FmtInv(Step(st, v), num)
    ensures Filter(Step(st, v).md, IsItem) == Filter(st.md, IsItem) + ItemOf(v)
  {
    if v.text != [] && !v.skipped {
      if v.reference && !st.inAlts {
        FlushParagraphKeeps(st, num);
      } else if st.reference != [] && !(v.reference || v.lowerStart) {
        FlushReferenceKeeps(st, num);
      }
    }
  }

  lemma StepKeeps(st: Fmt, v: View, num: nat)
    requires FmtInv(st, num)
    ensures FmtInv(Step(st, v), num)
    ensures Filter(Step(st, v).md, IsItem) == Filter(st.md, IsItem) + ItemOf(v)
  {
    if v.text != [] && v.subHeader {
      StepSubHeader(st, v, num);
    } else if v.text != [] && !v.skipped && v.choice.Some? {
      StepChoice(st, v, num);
    } else {
      StepText(st, v, num);
    }
  }

  lemma {:induction false} FmtKeeps(lines: seq<seq<char>>, view: seq<char> -> View, num: nat)
    ensures FmtInv(FmtWith(lines, view, num), num)
    ensures Filter(FmtWith(lines, view, num).md, IsItem) == ItemsWith(lines, view)
    decreases |lines|
  {
    if lines == [] {
      var md := Start(num).md;
      assert Filter(md, IsItem) == [] by {
        FilterSnoc([Title(num)], Blank, IsItem);
        FilterSnoc([], Title(num), IsItem);
        assert [] + [Title(num)] == [Title(num)];
      }
    } else {
      var init := lines[..|lines| - 1];
      FmtKeeps(init, view, num);
      StepKeeps(FmtWith(init, view, num), view(lines[|lines| - 1]), num);
    }
  }

  // ---------------------------------------------------------------------------
  // What the dedup loop keeps
  // ---------------------------------------------------------------------------

  predicate NoBlankRuns(md: seq<MdLine>) {
    forall k :: 0 < k < |md| ==> !(IsBlankLine(md[k - 1]) && IsBlankLine(md[k]))
  }

  lemma {:induction false} DedupLast(md: seq<MdLine>)
    requires md != []
    ensures Dedup(md) != []
    ensures var d := Dedup(md);
      if IsBlankLine(md[|md| - 1]) then IsBlankLine(d[|d| - 1]) else d[|d| - 1] == md[|md| - 1]
    decreases |md|
  {
    var init := md[..|md| - 1];
    if init != [] {
      DedupLast(init);
    }
  }

  /** Dropping only blank lines keeps every non-blank line, in order. */
  lemma {:induction false} DedupKeepsLines(md: seq<MdLine>, p: MdLine -> bool)
    requires forall m :: p(m) ==> !IsBlankLine(m)
    ensures Filter(Dedup(md), p) == Filter(md, p)
    decreases |md|
  {
    if md != [] {
      var init, last := md[..|md| - 1], md[|md| - 1];
      DedupKeepsLines(init, p);
      var t := if p(last) then [last] else [];
      assert Filter(md, p) == Filter(init, p) + t by {
        assert md == init + [last];
        FilterSnoc(init, last, p);
      }
      if IsBlankLine(last) && init != [] && IsBlankLine(init[|init| - 1]) {
        assert Dedup(md) == Dedup(init) by { DedupUnfold(md); }
        assert t == [];
      } else {
        assert Dedup(md) == Dedup(init) + [last] by { DedupUnfold(md); }
        FilterSnoc(Dedup(init), last, p);
      }
    }
  }

  lemma {:induction false} DedupFirst(md: seq<MdLine>)
    requires md != [] && !IsBlankLine(md[0])
    ensures Dedup(md) != [] && Dedup(md)[0] == md[0]
    decreases |md|
  {
    var init := md[..|md| - 1];
    if init != [] {
      DedupFirst(init);
    }
  }

  /** Dedup peels its last line: dropped exactly when it would repeat a blank line. */
  lemma DedupUnfold(md: seq<MdLine>)
    requires md != []
    ensures var init, last := md[..|md| - 1], md[|md| - 1];
      Dedup(md) == if IsBlankLine(last) && init != [] && IsBlankLine(init[|init| - 1]) then Dedup(init) else Dedup(init) + [last]
  {
  }

  lemma SeparatedPrefix(md: seq<MdLine>, n: nat)
    requires n <= |md| && ChoicesSeparated(md)
    ensures ChoicesSeparated(md[..n])
  {
    forall k | 0 < k < n && md[..n][k].Choice? ensures md[..n][k - 1].Choice? || IsBlankLine(md[..n][k - 1]) {
      assert md[..n][k] == md[k] && md[..n][k - 1] == md[k - 1];
    }
  }

  lemma DedupRunsStep(md: seq<MdLine>)
    requires md != [] && NoBlankRuns(Dedup(md[..|md| - 1]))
    ensures NoBlankRuns(Dedup(md))
  {
    var init, last := md[..|md| - 1], md[|md| - 1];
    DedupUnfold(md);
    if !(IsBlankLine(last) && init != [] && IsBlankLine(init[|init| - 1])) {
      assert Dedup(md) == Dedup(init) + [last];
      if init != [] {
        DedupLast(init);
      }
      SnocNoRun(Dedup(init), last);
    }
  }

  lemma DedupSeparatedStep(md: seq<MdLine>)
    requires md != [] && ChoicesSeparated(md) && ChoicesSeparated(Dedup(md[..|md| - 1]))
    ensures ChoicesSeparated(Dedup(md))
  {
    var init, last := md[..|md| - 1], md[|md| - 1];
    DedupUnfold(md);
    if !(IsBlankLine(last) && init != [] && IsBlankLine(init[|init| - 1])) {
      assert Dedup(md) == Dedup(init) + [last];
      if init != [] {
        DedupLast(init);
        assert init[|init| - 1] == md[|md| - 2];
      }
      SnocSeparated(Dedup(init), last);
    }
  }

  lemma SnocNoRun(d: seq<MdLine>, x: MdLine)
    requires NoBlankRuns(d) && (d != [] && IsBlankLine(x) ==> !IsBlankLine(d[|d| - 1]))
    ensures NoBlankRuns(d + [x])
  {
    forall k | 0 < k < |d + [x]| ensures !(IsBlankLine((d + [x])[k - 1]) && IsBlankLine((d + [x])[k])) {
      if k < |d| {
        assert (d + [x])[k] == d[k] && (d + [x])[k - 1] == d[k - 1];
      } else {
        assert (d + [x])[k - 1] == d[|d| - 1];
      }
    }
  }

  lemma SnocSeparated(d: seq<MdLine>, x: MdLine)
    requires ChoicesSeparated(d) && (d != [] && x.Choice? ==> d[|d| - 1].Choice? || IsBlankLine(d[|d| - 1]))
    ensures ChoicesSeparated(d + [x])
  {
    forall k | 0 < k < |d + [x]| && (d + [x])[k].Choice?
      ensures (d + [x])[k - 1].Choice? || IsBlankLine((d + [x])[k - 1])
    {
      if k < |d| {
        assert (d + [x])[k] == d[k] && (d + [x])[k - 1] == d[k - 1];
      } else {
        assert (d + [x])[k - 1] == d[|d| - 1];
      }
    }
  }

  /** After the dedup loop no two blank lines are adjacent, and choices still open or continue a list. */
  lemma {:induction false} DedupShape(md: seq<MdLine>)
    ensures NoBlankRuns(Dedup(md))
    ensures ChoicesSeparated(md) ==> ChoicesSeparated(Dedup(md))
    decreases |md|
  {
    if md != [] {
      var init := md[..|md| - 1];
      DedupShape(init);
      DedupRunsStep(md);
      if ChoicesSeparated(md) {
        SeparatedPrefix(md, |md| - 1);
        DedupSeparatedStep(md);
      }
    }
  }

  lemma {:induction false} RenderAllHead(md: seq<MdLine>)
    requires md != []
    ensures RenderAll(md)[0] == Render(md[0])
    decreases |md|
  {
    if |md| > 1 {
      RenderAllHead(md[..|md| - 1]);
    }
  }

  /**
   * The section's shape: it opens with the title, no two blank lines are
   * adjacent, every choice opens or continues a list, and the sub-headers and
   * choices are those of the input lines, in their order.
   */
  lemma FormatShapeWith(lines: seq<seq<char>>, view: seq<char> -> View, num: nat)
    ensures var md := FormatLinesWith(lines, view, num);
      && md != [] && md[0] == Title(num)
      && NoBlankRuns(md) && ChoicesSeparated(md)
      && Filter(md, IsItem) == ItemsWith(lines, view)
  {
    var st := FmtWith(lines, view, num);
    FmtKeeps(lines, view, num);
    FlushBothKeeps(st, num);
    var md0 := FlushBoth(st).md;
    DedupFirst(md0);
    DedupShape(md0);
    DedupKeepsLines(md0, IsItem);
  }

  lemma FormatShape(num: nat, rawLines: seq<seq<char>>)
    ensures var md := FormatLines(num, rawLines);
      && md != [] && md[0] == Title(num)
      && NoBlankRuns(md) && ChoicesSeparated(md)
      && Filter(md, IsItem) == ItemsWith(Alternatives.MergeSpec(rawLines), ViewOf)
  {
    FormatShapeWith(Alternatives.MergeSpec(rawLines), ViewOf, num);
  }

  /** The text begins with the title line `## QUESTÃO NN` and ends with a newline. */
  lemma FormatStartsWithTitle(num: nat, rawLines: seq<seq<char>>)
    ensures var t := "## QUESTÃO " + Pad2(num); var out := FormatSpec(num, rawLines);
      |out| >= |t| + 1 && out[..|t| + 1] == t + "\n" && out[|out| - 1] == '\n'
  {
    var md := FormatLines(num, rawLines);
    FormatShape(num, rawLines);
    var parts := RenderAll(md);
    RenderAllHead(md);
    JoinWithHead(parts, "\n");
  }

  /** With no lines, the section is the title line and one blank line. */
  lemma FormatEmpty(num: nat)
    ensures FormatSpec(num, []) == "## QUESTÃO " + Pad2(num) + "\n\n"
  {
    assert Alternatives.MergeSpec([]) == [];
    var md := [Title(num), Blank];
    assert FlushBoth(FmtWith([], ViewOf, num)).md == md;
    assert md[..1] == [Title(num)];
    DedupUnfold(md);
    DedupUnfold([Title(num)]);
    assert [Title(num)][..0] == [];
    assert Dedup(md) == md;
    var parts := [Render(Title(num)), ""];
    assert RenderAll(md) == parts;
    assert parts[..1] == [Render(Title(num))];
    assert JoinWith(parts, "\n") == Render(Title(num)) + "\n" + "";
  }

  // ---------------------------------------------------------------------------
  // Paragraphs and quoted references: a run of lines becomes one Markdown line
  // ---------------------------------------------------------------------------

  /** A line the loop adds to the open paragraph when no reference is open. */
  predicate PlainView(v: View) {
    v.text != [] && !v.subHeader && !v.skipped && v.choice.None? && !v.reference
  }

  /** A line that opens a quoted reference outside the list of choices. */
  predicate ReferenceView(v: View) {
    v.text != [] && !v.subHeader && !v.skipped && v.choice.None? && v.reference
  }

  /** A line that continues an open reference: another reference, or one that starts in lower case or with '('. */
  predicate ContinuesReference(v: View) {
    v.text != [] && !v.subHeader && !v.skipped && v.choice.None? && (v.reference || v.lowerStart)
  }

  /** The texts of the lines, as the loop sees them. */
  function Texts(lines: seq<seq<char>>, view: seq<char> -> View): (ts: seq<seq<char>>)
    ensures |ts| == |lines|
  {
    if lines == [] then [] else Texts(lines[..|lines| - 1], view) + [view(lines[|lines| - 1]).text]
  }

  lemma TextsSnoc(lines: seq<seq<char>>, i: nat, j: nat, view: seq<char> -> View)
    requires i < j <= |lines|
    ensures Texts(lines[i..j], view) == Texts(lines[i..j - 1], view) + [view(lines[j - 1]).text]
  {
    assert lines[i..j][..j - i - 1] == lines[i..j - 1];
  }

  /** With no reference open, a plain line joins the open paragraph. */
  lemma StepPlain(st: Fmt, v: View)
    requires st.reference == [] && PlainView(v)
    ensures Step(st, v) == st.(paragraph := st.paragraph + [v.text])
  {
  }

  /** Plain lines with no reference open pile up in the paragraph, and nothing else changes. */
  lemma {:induction false} ParagraphRun(lines: seq<seq<char>>, view: seq<char> -> View, num: nat, i: nat, j: nat)
    requires i <= j <= |lines|
    requires FmtWith(lines[..i], view, num).reference == []
    requires forall k :: i <= k < j ==> PlainView(view(lines[k]))
    ensures var st := FmtWith(lines[..i], view, num);
      FmtWith(lines[..j], view, num) == st.(paragraph := st.paragraph + Texts(lines[i..j], view))
    decreases j
  {
    if j == i {
      assert lines[i..j] == [];
    } else {
      ParagraphRun(lines, view, num, i, j - 1);
      var st := FmtWith(lines[..i], view, num);
      var prev := FmtWith(lines[..j - 1], view, num);
      var v := view(lines[j - 1]);
      FmtWithSnoc(lines, j - 1, view, num);
      StepPlain(prev, v);
      TextsSnoc(lines, i, j, view);
      calc {
        FmtWith(lines[..j], view, num);
        prev.(paragraph := prev.paragraph + [v.text]);
        st.(paragraph := (st.paragraph + Texts(lines[i..j - 1], view)) + [v.text]);
        { AppendAssoc(st.paragraph, Texts(lines[i..j - 1], view), [v.text]); }
        st.(paragraph := st.paragraph + Texts(lines[i..j], view));
      }
    }
  }

  /**
   * A run of plain lines that a sub-header ends becomes one paragraph, their
   * texts joined by spaces and stripped, then a blank line, and only then the
   * bold sub-header; a run that strips to nothing leaves no paragraph.
   */
  lemma ParagraphBeforeSubHeader(lines: seq<seq<char>>, view: seq<char> -> View, num: nat, i: nat, j: nat)
    requires i <= j < |lines|
    requires var st := FmtWith(lines[..i], view, num); st.paragraph == [] && st.reference == []
    requires forall k :: i <= k < j ==> PlainView(view(lines[k]))
    requires view(lines[j]).text != [] && view(lines[j]).subHeader
    ensures var st, t := FmtWith(lines[..i], view, num), Strip(JoinWith(Texts(lines[i..j], view), " "));
      FmtWith(lines[..j + 1], view, num)
        == Fmt(st.md + (if t != [] then [Para(t), Blank] else []) + [Bold(view(lines[j]).text), Blank], [], [], false)
  {
    ParagraphOpen(lines, view, num, i, j);
    FmtWithSnoc(lines, j, view, num);
    var open := FmtWith(lines[..i], view, num).(paragraph := Texts(lines[i..j], view));
    FlushParagraphOf(open);
  }

  /** After a run of plain lines that starts with no paragraph and no reference open, the paragraph holds their texts. */
  lemma ParagraphOpen(lines: seq<seq<char>>, view: seq<char> -> View, num: nat, i: nat, j: nat)
    requires i <= j <= |lines|
    requires var st := FmtWith(lines[..i], view, num); st.paragraph == [] && st.reference == []
    requires forall k :: i <= k < j ==> PlainView(view(lines[k]))
    ensures FmtWith(lines[..j], view, num) == FmtWith(lines[..i], view, num).(paragraph := Texts(lines[i..j], view))
  {
    ParagraphRun(lines, view, num, i, j);
    assert [] + Texts(lines[i..j], view) == Texts(lines[i..j], view);
  }

  /**
   * A run of plain lines that a full choice ends becomes one paragraph and a
   * blank line, and the choice then opens or continues the list as one
   * `**X** text` item.
   */
  lemma ParagraphBeforeChoice(lines: seq<seq<char>>, view: seq<char> -> View, num: nat, i: nat, j: nat)
    requires i <= j < |lines|
    requires var st := FmtWith(lines[..i], view, num); st.paragraph == [] && st.reference == []
    requires forall k :: i <= k < j ==> PlainView(view(lines[k]))
    requires var v := view(lines[j]); v.text != [] && !v.subHeader && !v.skipped && v.choice.Some?
    ensures var st, t, v := FmtWith(lines[..i], view, num), Strip(JoinWith(Texts(lines[i..j], view), " ")), view(lines[j]);
      var md := st.md + (if t != [] then [Para(t), Blank] else []);
      FmtWith(lines[..j + 1], view, num)
        == Fmt(OpenList(md, st.inAlts) + [Choice(v.text[0], Strip(v.choice.value))], [], [], true)
  {
    ParagraphOpen(lines, view, num, i, j);
    FmtWithSnoc(lines, j, view, num);
    var open := FmtWith(lines[..i], view, num).(paragraph := Texts(lines[i..j], view));
    FlushParagraphOf(open);
  }

  /** Flushing an open paragraph with no reference open adds its stripped text, if any, and a blank line. */
  lemma FlushParagraphOf(st: Fmt)
    requires st.reference == []
    ensures var t := Strip(JoinWith(st.paragraph, " "));
      FlushBoth(st) == st.(md := st.md + (if t != [] then [Para(t), Blank] else []), paragraph := [])
  {
    if st.paragraph == [] {
      assert JoinWith(st.paragraph, " ") == [];
      assert Strip([]) == [];
    }
  }

  /**
   * A question whose lines are all plain is the title, a blank line and one
   * paragraph holding all of them, joined by spaces and stripped.
   */
  lemma PlainQuestion(lines: seq<seq<char>>, view: seq<char> -> View, num: nat)
    requires forall k :: 0 <= k < |lines| ==> PlainView(view(lines[k]))
    ensures var t := Strip(JoinWith(Texts(lines, view), " "));
      FormatLinesWith(lines, view, num) == [Title(num), Blank] + (if t != [] then [Para(t), Blank] else [])
  {
    assert lines[..0] == [] && lines[..|lines|] == lines && lines[0..|lines|] == lines;
    ParagraphOpen(lines, view, num, 0, |lines|);
    var t := Strip(JoinWith(Texts(lines, view), " "));
    FlushParagraphOf(Start(num).(paragraph := Texts(lines, view)));
    DedupTitleParagraph(num, t);
  }

  /** The title, a blank line and an optional paragraph with its blank line hold no run to collapse. */
  lemma DedupTitleParagraph(num: nat, t: seq<char>)
    ensures var md := [Title(num), Blank] + (if t != [] then [Para(t), Blank] else []);
      Dedup(md) == md
  {
    var head := [Title(num), Blank];
    DedupUnfold([Title(num)]);
    assert [Title(num)][..0] == [];
    assert head[..1] == [Title(num)];
    DedupUnfold(head);
    assert Dedup(head) == head;
    if t != [] {
      var md := head + [Para(t), Blank];
      assert md[..3] == head + [Para(t)];
      assert md[..3][..2] == head;
      DedupUnfold(md[..3]);
      assert Dedup(md[..3]) == md[..3];
      assert md[..3] == md[..|md| - 1];
      DedupUnfold(md);
    } else {
      assert head + [] == head;
    }
  }

  /**
   * A reference line outside the list of choices ends the open paragraph and
   * opens a reference; the lines that continue it pile up in the reference.
   */
  lemma {:induction false} ReferenceRun(lines: seq<seq<char>>, view: seq<char> -> View, num: nat, i: nat, j: nat)
    requires i < j <= |lines|
    requires var st := FmtWith(lines[..i], view, num); st.reference == [] && !st.inAlts
    requires ReferenceView(view(lines[i]))
    requires forall k :: i < k < j ==> ContinuesReference(view(lines[k]))
    ensures var st := FlushParagraph(FmtWith(lines[..i], view, num));
      FmtWith(lines[..j], view, num) == st.(reference := Texts(lines[i..j], view))
    decreases j
  {
    if j == i + 1 {
      FmtWithSnoc(lines, i, view, num);
      TextsSnoc(lines, i, j, view);
      assert lines[i..i] == [];
    } else {
      ReferenceRun(lines, view, num, i, j - 1);
      FmtWithSnoc(lines, j - 1, view, num);
      TextsSnoc(lines, i, j, view);
    }
  }

  /**
   * A plain line that neither is a reference nor starts in lower case closes
   * the reference: its lines become one quote, joined by spaces, stripped and
   * with runs of spaces collapsed, then a blank line; the closing line opens
   * a new paragraph.
   */
  lemma QuoteBeforeParagraph(lines: seq<seq<char>>, view: seq<char> -> View, num: nat, i: nat, j: nat)
    requires i < j < |lines|
    requires var st := FmtWith(lines[..i], view, num); st.reference == [] && !st.inAlts
    requires ReferenceView(view(lines[i]))
    requires forall k :: i < k < j ==> ContinuesReference(view(lines[k]))
    requires PlainView(view(lines[j])) && !view(lines[j]).lowerStart
    ensures var st := FlushParagraph(FmtWith(lines[..i], view, num));
      var q := CollapseSpaces(Strip(JoinWith(Texts(lines[i..j], view), " ")));
      FmtWith(lines[..j + 1], view, num) == Fmt(st.md + [Quote(q), Blank], [view(lines[j]).text], [], false)
  {
    ReferenceRun(lines, view, num, i, j);
    FmtWithSnoc(lines, j, view, num);
  }
}
