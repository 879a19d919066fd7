# ENEM exam extractor: a Dafny model of its core

The extractor turns the PDF of an ENEM exam booklet into one Markdown document.
The document holds a header, one section per knowledge area and one section per
question. This project models the text pipeline behind that conversion and
proves properties of each stage.

- **Layout** (`teste2.py:80-165`): a page's words, each with its text, left edge `x0` and
  top, become text lines in reading order.
  - A central-band test decides whether the page has two columns.
  - Words are then bucketed by their quantised vertical position, and each bucket is
    ordered by `x0`.
- **Cleaning** (`teste2.py:172-193`) repairs glyphs that the PDF layer tripled. It also
  drops the page furniture: issue names, colours, page numbers, footers and bare years.
- **Alternatives** (`teste2.py:200-252`): the choice normaliser.
  - A bare letter line is joined to the line after it.
  - A choice line absorbs its continuation lines.
- **Segmenter** (`teste2.py:259-290`) cuts the lines into one block per question header,
  then sorts the blocks by question number with a stable sort.
- **Formatter** (`teste2.py:297-396`) renders one question as a Markdown section: a title,
  paragraphs, quoted references, bold sub-headers and a list of choices.
- **Framing** (`teste2.py:403-521`) covers three steps:
  - it reads the metadata: year, day and booklet colour;
  - it finds the knowledge-area headers;
  - it assembles the document: header, areas, and the questions no area covered.
- **PageMarkdown** (`teste.py:120-130`) writes the Markdown for the questions of one
  page, as the per-page extractor hands them over.
- **FileNames** (`extract_pdf_pages_to_png.py:10-20`) makes a booklet's name safe to use
  as a file name.

`Base` holds the character classes and the Python string primitives the code relies on.
`Patterns` writes out each regular expression of `teste2.py` as a predicate.

**How the model is built.**
- Where the source updates variables in a loop, the model is a `method` with the same loop.
  Each such method is proved equal to a recursive specification function, and the lemmas
  are stated about those functions.
- Several stages take what they ask of a line as a function parameter. This lets the lemmas
  hold for any such view; e.g. Alternatives has `Shape`, Formatter `View`, Framing
  `LineFacts` and Segmenter header readers `hd`.
  - The operation the source performs instantiates the parameter with the source's own
    predicates, e.g. `ShapeOf`, `ViewOf` or `FactsOf`.

## Model

| member | source | states |
|---|---|---|
| Layout.DetectColumnBoundary | teste2.py:80-120 | a boundary, when one is found, lies inside the central band: closer to the page centre than 40% of half the page width |
| Layout.BoundaryOfIsSplit | teste2.py:89-120 | the early exits on an empty page or an empty central band give the same answer as the group-size and gap tests |
| Layout.BoundaryCharacterised | teste2.py:80-120 | a boundary is found exactly when both central groups have at least 5 words and a gap of at least 5 points; it is then the midpoint of the gap, strictly right of every left word and left of every right word |
| Layout.NoCentralWordsNoBoundary | teste2.py:92-100 | a page with no word in the central band (within 40% of half the width from the centre) is single-column |
| Layout.FarColumnsGiveNoBoundary | teste2.py:92-100 | words at x = 50..90 and 500..540 on a 600-point page give no boundary, because the band 180..420 holds none of them |
| Layout.BoundaryIgnoresOrder | teste2.py:80-120 | the boundary depends only on the multiset of word start positions, not on their order |
| Layout.CollectBuckets | teste2.py:130-133 | the bucket loop builds the dict from each quantised top to its words in input order, with its keys in first-seen order |
| Layout.WordsToLines | teste2.py:123-140 | the method returns one line per bucket, in key order, each line being its words sorted by x0 and joined by spaces |
| Layout.LinesKeepEveryWord | teste2.py:123-140 | every input word lands in exactly one line, as often as it occurs in the input |
| Layout.LinesOrdered | teste2.py:135-140 | lines come in strictly increasing key order; each line is non-empty, sorted by x0 and holds only words of its own key; no words give no lines |
| Layout.SortByX0Stable | teste2.py:137 | the sort of a bucket by x0 is stable: words that start at the same x keep their extraction order |
| Layout.ExtractPageLines | teste2.py:153-165 | an empty page gives no lines; a single-column page is one line list; a two-column page gives the left column's lines, then the right column's |
| Layout.ColumnsPartition | teste2.py:161-163 | the left column (x0 below the boundary) and the right one (x0 at or above it) together hold each word exactly once |
| Layout.PageKeepsEveryWord | teste2.py:153-165 | on a page, every word lands in exactly one line |
| Layout.PageColumnsInOrder | teste2.py:161-165 | on a two-column page, a word is in one of the leading lines exactly when it starts left of the boundary |
| Cleaning.FixOcrDuplicates | teste2.py:172-174 | the repaired text is never longer than the input, is empty exactly when the input is, and keeps the input's first character |
| Cleaning.FixIsCollapseRuns | teste2.py:172-174 | the regex substitution of `(.)\1{2,}` equals the run reading: every maximal run of three or more equal non-newline characters becomes one, shorter runs stay |
| Cleaning.RunRule | teste2.py:172-174 | a run of n copies of c becomes one c when n >= 3 and c is not a newline, and stays as it is otherwise |
| Cleaning.FixNoTriple | teste2.py:172-174 | the repaired text never holds three identical non-newline characters in a row (`.` does not match a newline, so newline runs survive) |
| Cleaning.FixKeepsTripleFree | teste2.py:172-174 | a text without three identical consecutive characters is left unchanged |
| Cleaning.FixIdempotent | teste2.py:172-174 | repairing twice is repairing once |
| Cleaning.FixTripledExample | teste2.py:172-174 | "PPPRRR" is repaired to "PR" |
| Cleaning.FixDoubledExample | teste2.py:172-174 | "PPRR" is left alone, because only runs of three or more collapse |
| Cleaning.CleanLines | teste2.py:187-193 | the method returns exactly CleanLinesSpec of its input: each line stripped and repaired, in input order, with the lines that are then empty or noise left out |
| Cleaning.CleanIsOrderedSubsequence | teste2.py:187-193 | the output is the repaired input lines at strictly increasing positions, and a position is skipped exactly when its repaired line is noise |
| Cleaning.CleanLinesNoNoise | teste2.py:177-193 | no cleaned line is empty or noise |
| Cleaning.CleanLinesAppend | teste2.py:187-193 | cleaning distributes over concatenation of line lists |
| Cleaning.IsNoise | teste2.py:177-184 | a line whose stripped text starts with Q or q is never noise |
| Cleaning.QLinePattern | teste2.py:47-57 | no noise pattern matches a text that starts with Q or q: each one starts with '*', a digit or another letter |
| Cleaning.YearLineIsNoise | teste2.py:50 | a bare year such as "2013" is noise |
| Cleaning.QuestionLineNotNoise | teste2.py:177-184 | a sentence that merely contains a year is kept |
| Alternatives.JoinLetterLines | teste2.py:206-223 | the first loop equals its recursive specification: a bare letter line followed by a non-empty line that is neither a header nor a choice is replaced by both stripped lines joined by a space |
| Alternatives.AbsorbContinuations | teste2.py:233-247 | the inner loop stops at the first following line that is empty, a choice, a bare letter, a question or area header, or starts upper-case; each line before it is appended after one space to the right-stripped choice |
| Alternatives.ContEndStops | teste2.py:233-246 | every absorbed line is a continuation line, and the scan stops at the end or at the first line that is not one |
| Alternatives.AbsorbChoiceLines | teste2.py:225-252 | the second loop equals its recursive specification |
| Alternatives.MergeAlternativas | teste2.py:200-252 | the two passes compose to the merge specification |
| Alternatives.MergeNoLonger | teste2.py:200-252 | merging never adds lines |
| Alternatives.MergeKeepsText | teste2.py:200-252 | merging only re-spaces: the non-whitespace text of all lines, concatenated, is the same before and after |
| Alternatives.HeaderNotLetterOnly | teste2.py:60-65 | a line holding a question header is never a bare choice letter |
| Alternatives.MergeSplitsAtHeaders | teste2.py:200-252 | a question-header line is never absorbed into the line before it: merging the whole list equals merging the part before the header and the part from it separately |
| Segmenter.HeaderNumber | teste2.py:268-275 | a line announces a question only when its stripped text begins with the header word: a header buried mid-line does not count |
| Segmenter.HeaderNumberBound | teste2.py:60-61 | a header carries at most three digits, so the number it announces is below 1000 |
| Segmenter.SplitIntoQuestions | teste2.py:259-290 | the method equals the recursive scan followed by the sort |
| Segmenter.SortSorted | teste2.py:289 | the blocks come out in nondecreasing order of number |
| Segmenter.SortPermutes | teste2.py:289 | the sort neither loses nor duplicates a block |
| Segmenter.SortStable | teste2.py:289 | the blocks that carry any one number keep their input order |
| Segmenter.SegmentsFollowHeaders | teste2.py:264-288 | each header opens exactly one block, in order; only the last header's block can be missing, and only when no line follows that header |
| Segmenter.SegmentsKeepLines | teste2.py:264-288 | the blocks hold exactly the non-header lines after the first header, in order |
| Segmenter.SegmentsByHeaders | teste2.py:264-288 | the k-th block carries the k-th header's number and exactly the lines strictly between that header and the next one (or the end of the text); there is one block per header, except that the last header's block is missing exactly when no line follows it |
| Segmenter.LongNumberIsText | teste2.py:60-61 | a header word followed by four or more digits announces no question, so the line is ordinary text and joins the open question's lines |
| Segmenter.FourDigitHeaderExample | teste2.py:60-61 | "QUESTÃO 1234" is not a header |
| Segmenter.FollowingNotHeaders | teste2.py:268-284 | no line inside a block is a header |
| Segmenter.SegmentNumbersBound | teste2.py:271-281 | every block's number is below 1000 |
| Segmenter.SplitProperties | teste2.py:259-290 | the result is sorted, is a permutation of the blocks in text order, keeps equal numbers in text order, and every number is below 1000 |
| Formatter.IsReferenceLine | teste2.py:297-304 | a line without a colon is a reference exactly when it opens with two or more capitals followed by a comma or a full stop |
| Formatter.NoColonNoCitation | teste2.py:302 | every citation marker ends in a colon, so a text without a colon holds none |
| Formatter.SurnameLineIsReference | teste2.py:297-304 | "SILVA, J." is a reference line: a surname in capitals followed by a comma |
| Formatter.BlankIsEmptyRender | teste2.py:386-394 | a typed Markdown line is blank exactly when it renders as the empty string |
| Formatter.RemoveBlankRuns | teste2.py:386-394 | the dedup loop equals its recursive specification |
| Formatter.FormatQuestionToMarkdown | teste2.py:307-396 | the method equals the recursive specification of the formatting loop, the dedup and the join |
| Formatter.FmtKeeps | teste2.py:336-381 | the loop keeps its invariant: the title comes first and every choice opens or continues a list; the bold sub-headers and choices emitted are those of the lines, in order |
| Formatter.DedupKeepsLines | teste2.py:386-394 | dropping blank lines keeps every other line, in order |
| Formatter.DedupShape | teste2.py:386-394 | after the dedup no two blank lines are adjacent, and a choice still opens or continues a list |
| Formatter.FormatShape | teste2.py:307-396 | the section opens with the title, has no adjacent blank lines, every choice opens or continues a list, and its sub-headers and choices are those of the merged lines, in order |
| Formatter.FlushParagraphOf | teste2.py:319-334 | with no reference open, flushing adds the open paragraph's lines joined by spaces and stripped, then a blank line, and nothing when that text is empty |
| Formatter.ParagraphRun | teste2.py:336-381 | a run of plain lines with no reference open only adds their texts, in order, to the open paragraph |
| Formatter.ParagraphOpen | teste2.py:336-381 | after a run of plain lines that starts with both buffers empty, the paragraph buffer holds exactly their stripped texts and nothing else has changed |
| Formatter.ParagraphBeforeSubHeader | teste2.py:336-381 | a run of plain lines ended by a sub-header becomes one paragraph line and a blank line, then the bold sub-header and a blank line; the buffers are empty and the list is closed |
| Formatter.ParagraphBeforeChoice | teste2.py:336-381 | a run of plain lines ended by a full choice becomes one paragraph line and a blank line, then the choice as one `**X** text` item, opening the list |
| Formatter.PlainQuestion | teste2.py:307-396 | a question whose lines are all plain text is the title, a blank line, and one paragraph holding all the lines joined by spaces |
| Formatter.ReferenceRun | teste2.py:366-376 | a reference line outside the choices flushes the paragraph and opens a reference; following references and lines starting in lower case or with '(' pile up in it |
| Formatter.QuoteBeforeParagraph | teste2.py:366-381 | a plain line starting otherwise closes the reference as one quote (joined, stripped, spaces collapsed) and a blank line, then opens a new paragraph |
| Formatter.FormatStartsWithTitle | teste2.py:307-396 | the text begins with "## QUESTÃO NN" and a newline, and ends with a newline |
| Formatter.FormatEmpty | teste2.py:307-396 | with no lines the section is the title line and one blank line |
| Framing.ScanHead | teste2.py:405-413 | the first loop of extract_metadata equals the metadata fold over the first 60 lines |
| Framing.FindColour | teste2.py:414-417 | the colour loop returns the first listed colour found, or nothing |
| Framing.ExtractMetadata | teste2.py:403-418 | the method equals the metadata specification |
| Framing.TitleNeverChanges | teste2.py:404-413 | the default title is never replaced, because the override only fires while the title is empty, and the fold never sets a colour |
| Framing.YearIsFirstWith | teste2.py:405-408 | the year is the text of the first year line, and it is empty exactly when there is none |
| Framing.DayIsFirstWith | teste2.py:405-411 | the day is the first day mark found, and it is empty exactly when there is none |
| Framing.MetadataFirstHits | teste2.py:403-418 | the title is the default; among the first 60 stripped lines, the year is the first 19xx/20xx line and the day the first "Nº DIA" mark; each is empty exactly when none exists |
| Framing.ColourIsFirst | teste2.py:414-417 | the colour is the first of the colour list, in list order, found in the upper-cased first 12 lines, capitalised; it is empty exactly when none is found |
| Framing.FindAreaBoundaries | teste2.py:421-435 | the method equals the area specification |
| Framing.StartsAreHeaders | teste2.py:423-426 | the area starts are exactly the header lines, in increasing order, each named by its header |
| Framing.AreasWithoutHeaders | teste2.py:428-429 | with no header line there is one area, "Questões", covering the whole text |
| Framing.AreasContiguous | teste2.py:431-435 | with headers, the areas run from the first header to the end in contiguous, non-empty pieces, each named by the header it starts at |
| Framing.AreasHaveNoInnerHeader | teste2.py:421-435 | no header line lies inside an area or before the first one |
| Framing.ReadAllLines | teste2.py:450-452 | the reading loop appends each page's cleaned lines in page order |
| Framing.EmitSections | teste2.py:488-509 | the loop over areas collects each area's parts and the set of question numbers it formatted |
| Framing.OrphanNumbers | teste2.py:512 | the orphans are the question numbers not yet used, sorted |
| Framing.FormatOrphans | teste2.py:518-519 | each orphan is formatted from the whole text's dict, in order |
| Framing.ExtractExam | teste2.py:442-521 | the method equals the document specification, taking the file name and the pages' words as inputs |
| Framing.ExamStartsWithTitle | teste2.py:468-471 | the document opens with "# " and the default title |
| Framing.QuestionMapLast | teste2.py:464 | the dict has one entry per number found, holding the lines of the last block with that number |
| Framing.NoQuestionLost | teste2.py:511-519 | every number found in the whole text is either used by an area or an orphan; orphans are not used; orphans come in increasing order |
| Framing.AreaPartsEmpty | teste2.py:490-494 | an area contributes nothing exactly when it holds no question |
| Framing.AreaPartsLayout | teste2.py:496-508 | otherwise it contributes its heading, then one section per question in the order the split gives them |
| Framing.RangeLine | teste2.py:499 | a range line, when found, is one of the area's lines and contains "Questões de N a M" |
| Framing.RangeLineFirst | teste2.py:499 | the hint is the first line that contains a range, and there is none exactly when no line contains one |
| Framing.UsedWithHas | teste2.py:490-509 | a number is in `used` exactly when the split of some area's lines holds a block with that number |
| Framing.AreaSectionIn | teste2.py:490-509 | the formatted section of every block of every area with questions is among the area sections |
| Framing.OrphanSectionIn | teste2.py:512-519 | the formatted section of every orphan, built from the whole text's dict, is among the orphan parts |
| Framing.EveryQuestionPlaced | teste2.py:488-519 | every question number found in the whole text gets a section in the document: the section of an area's block with that number when an area used it, and otherwise its orphan section |
| Framing.OrphanQuestionsAt | teste2.py:518-519 | the k-th orphan part is the section of the k-th orphan number |
| Framing.QuestionPartsAt | teste2.py:507-508 | the k-th part of an area is the section of its k-th question |
| PageMarkdown.GerarMarkdown | teste.py:120-130 | the loop builds exactly the Markdown specification of the question list |
| PageMarkdown.MarkdownAppend | teste.py:120-130 | the text for two question lists is the two texts in a row |
| PageMarkdown.MarkdownStartsWithRule | teste.py:120-130 | no questions give the empty text; otherwise the text opens with the horizontal rule |
| PageMarkdown.QuestionInOrder | teste.py:122-130 | the i-th question's text follows the texts of the questions before it |
| PageMarkdown.ImageInOrder | teste.py:126-127 | images appear in order, the k-th (from 0) labelled "Imagem k+1" |
| PageMarkdown.ChoiceInOrder | teste.py:128-129 | choices appear in order, one list item each |
| PageMarkdown.QuestionLayout | teste.py:122-129 | a question's text opens with the rule and its "###" title, then statement and images, and its choices come last |
| FileNames.SanitizeIsCharwise | extract_pdf_pages_to_png.py:10-20 | the chain of five replacements equals rewriting each character on its own: separators become "_", parentheses disappear |
| FileNames.SanitizeAppend | extract_pdf_pages_to_png.py:10-20 | sanitising distributes over concatenation |
| FileNames.SanitizeFacts | extract_pdf_pages_to_png.py:10-20 | the result holds no space, slash, backslash or parenthesis; it is shorter than the input by exactly the number of parentheses; a name without those characters is unchanged |
| FileNames.SanitizeIdempotent | extract_pdf_pages_to_png.py:10-20 | sanitising twice is sanitising once |
| Base.StripFacts | teste2.py:177-193 | strip() returns a contiguous piece of the input with no whitespace at either end, and everything it removes before and after that piece is whitespace |
| Base.SortIntsIncreasing | teste2.py:512 | sorting distinct integers gives their strictly increasing enumeration |

## Left out

- PDF access (pdfplumber), file reading and writing, and printing to the console are not modelled.
  - A page is given as its list of words and its width.
  - The file name is a parameter of `ExtractExam`.
  - `Path(pdf_path).name` is that parameter.
- Floating point:
  - coordinates are reals, so `page_width / 2`, the midpoint and the comparisons are exact;
  - `round(top / tol)` is Python's round-half-even on the exact quotient;
  - where binary floating point would round differently, the model does not follow it.
- Characters: case folding, `\w`, `isupper` and `upper()` are exact over Latin-1 (U+0000..U+00FF). Characters beyond it count as non-letters, so the few non-Latin-1 case pairs Python folds are not modelled.
- Digits: `\d` and `int()` accept every Unicode decimal digit; the model's digits are the ASCII digits 0-9 only, so headers, years and page numbers written in other scripts' digits are not modelled.
- Regular expressions are written out as scanners for each pattern the code uses. The regex engine in general is not modelled.
- `COLUMN_GAP_MIN` (teste2.py:41) is declared but never read by the code, so it is not modelled.
- Segmenter.SortByNumber: Python's list sort is modelled as a stable insertion sort. Both give the same result, because a stable sort's output is fully determined.
- Layout.SortByX0: the same, for the sort of a bucket by `x0` (its stability is Layout.SortByX0Stable).
- Formatter.DedupShape: no-adjacent-blank-lines is stated on the typed Markdown lines before they are joined, not on the rendered string.
- The `verbose` progress output of extract_exam is not modelled.
- Not part of this model:
  - `utils.py`;
  - the YOLO-based page extractor and `extrair_questoes_pagina_2` beyond `gerar_markdown`;
  - the graphical and web interfaces;
  - the training and build scripts;
  - the command-line `main` functions.
- Behaviour of the code that the model keeps as written:
  - Layout.FarColumnsGiveNoBoundary: the central band is the words within 40% of half the width of the centre (teste2.py:92-97). Two clusters at 50-90 and 500-540 on a 600-point page lie outside it, so the code finds no boundary for such a page.
  - Cleaning: the footer noise pattern (teste2.py:49) is not anchored at the end of the line, so the model does not anchor it either.
  - Cleaning.FixDoubledExample: the program's docstring (teste2.py:173) says doubled glyphs such as "PPRRIINNCC" are repaired. The pattern only collapses runs of three or more, so doubled text is unchanged.
  - Segmenter.SegmentsByHeaders: an empty block is kept when another header follows it (teste2.py:279-280), but an empty last block is dropped (teste2.py:286).
  - Segmenter.HeaderNumber: the fallback header test with `startswith` (teste2.py:275) is case-sensitive, although both header patterns ignore case.
  - Framing.TitleNeverChanges: the title override (teste2.py:412) never fires, because the title starts non-empty (teste2.py:404).
  - Layout.LinesOrdered: lines are ordered by the quantised key (teste2.py:136), not by the raw top.
