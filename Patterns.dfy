/**
 * The regular expressions of teste2.py, each written out by hand as a
 * predicate over seq<char> (or as a function returning the capture group the
 * code reads). Every pattern is a sequence of greedy runs, and each run is
 * followed by something its character class cannot match, so the greedy run
 * is the only one that can succeed: scanning each run to its end is exactly
 * what the backtracking matcher accepts.
 *
 * `re.match` anchors at position 0, `re.search` tries every position, and
 * `$` accepts the end of the string or a position just before a final
 * newline (Base.AtEnd). `.` is any character except a newline.
 */
module Patterns {
  import opened Base

  // ---------------------------------------------------------------------------
  // Question headers (teste2.py:60-61)
  // ---------------------------------------------------------------------------

  /** `QUES[TÃ][ÃA]O` under IGNORECASE, at position i. */
  predicate HeaderWordAt(s: seq<char>, i: nat) {
    i + 7 <= |s| && CiAt(s, i, "QUES")
    && (CiEq(s[i + 4], 'T') || CiEq(s[i + 4], 'Ã'))
    && (CiEq(s[i + 5], 'Ã') || CiEq(s[i + 5], 'A'))
    && CiEq(s[i + 6], 'O')
  }

  /** int() of the digit run s[j..k]. */
  function RunValue(s: seq<char>, j: nat, k: nat): (v: nat)
    requires j <= k <= |s|
    requires forall t :: j <= t < k ==> IsDigit(s[t])
    ensures v < Pow10(k - j)
  {
    assert forall t :: 0 <= t < k - j ==> s[j..k][t] == s[j + t];
    DigitsValue(s[j..k])
  }

  /** QUESTAO_RE.match: `^QUES[TÃ][ÃA]O\s+(\d{1,3})\s*$`; the result is int(group 1). */
  function QuestaoMatch(s: seq<char>): Option<nat> {
    if !HeaderWordAt(s, 0) then None
    else
      var j := SpanEnd(s, 7, IsSpace);
      var k := SpanEnd(s, j, IsDigit);
      if j > 7 && 1 <= k - j <= 3 && AllSpace(s[k..]) then Some(RunValue(s, j, k)) else None
  }

  /** `\b` before a word character at position p. */
  predicate WordStartAt(s: seq<char>, p: nat) {
    p <= |s| && (p == 0 || !IsWordChar(s[p - 1]))
  }

  /** QUESTAO_SEARCH_RE at position p: `\bQUES[TÃ][ÃA]O\s+(\d{1,3})\b`; the result is int(group 1). */
  function QuestaoAt(s: seq<char>, p: nat): Option<nat> {
    if !(WordStartAt(s, p) && HeaderWordAt(s, p)) then None
    else
      var j := SpanEnd(s, p + 7, IsSpace);
      var k := SpanEnd(s, j, IsDigit);
      if j > p + 7 && 1 <= k - j <= 3 && (k == |s| || !IsWordChar(s[k])) then Some(RunValue(s, j, k))
      else None
  }

  /** QUESTAO_SEARCH_RE.search(s) finds a match. */
  predicate ContainsQuestao(s: seq<char>) {
    exists p :: 0 <= p < |s| && QuestaoAt(s, p).Some?
  }

  // ---------------------------------------------------------------------------
  // Lettered choices (teste2.py:64-65)
  // ---------------------------------------------------------------------------

  predicate IsChoiceLetter(c: char) { 'A' <= c <= 'E' }

  /** ALTERNATIVA_LETTER_RE.match: `^([A-E])\s*$` (case-sensitive). */
  predicate IsLetterOnly(s: seq<char>) {
    |s| >= 1 && IsChoiceLetter(s[0]) && AllSpace(s[1..])
  }

  /** `.+$` from position p: where the greedy `.+` has to stop for `$` to hold. */
  function DotPlusEnd(s: seq<char>, p: nat): (r: Option<nat>)
    requires p <= |s|
    ensures r.Some? ==> p < r.value <= |s|
  {
    var e := SpanEnd(s, p, NotNewline);
    if e > p && AtEnd(s, e) then Some(e) else None
  }

  /** `\s{1,6}(.+)$` after the letter, trying gap widths k, k-1, ..., 1 as the greedy matcher does. */
  function ChoiceGap(s: seq<char>, k: nat): Option<seq<char>>
    decreases k
  {
    if k == 0 then None
    else if 1 + k <= |s| && AllSpace(s[1..1 + k]) then
      match DotPlusEnd(s, 1 + k)
      case Some(e) => Some(s[1 + k..e])
      case None => ChoiceGap(s, k - 1)
    else ChoiceGap(s, k - 1)
  }

  /** ALTERNATIVA_FULL_RE.match: `^([A-E])\s{1,6}(.+)$` (case-sensitive); the result is group 2. */
  function FullChoiceText(s: seq<char>): Option<seq<char>> {
    if |s| >= 1 && IsChoiceLetter(s[0]) then ChoiceGap(s, 6) else None
  }

  predicate IsFullChoice(s: seq<char>) { FullChoiceText(s).Some? }

  // ---------------------------------------------------------------------------
  // Knowledge-area headers and "Questões de N a M" (teste2.py:68-73)
  // ---------------------------------------------------------------------------

  /** `(HUMANAS|DA\s+NATUREZA|EXATAS|SOCIAIS)` at position j. */
  predicate AreaNameAt(s: seq<char>, j: nat) {
    CiAt(s, j, "HUMANAS")
    || (CiAt(s, j, "DA") && var k := SpanEnd(s, j + 2, IsSpace); k > j + 2 && CiAt(s, k, "NATUREZA"))
    || CiAt(s, j, "EXATAS")
    || CiAt(s, j, "SOCIAIS")
  }

  /** AREA_HEADER_RE at position p (IGNORECASE). */
  predicate AreaHeaderAt(s: seq<char>, p: nat) {
    (p + 8 <= |s| && CiAt(s, p, "CI") && (CiEq(s[p + 2], 'E') || CiEq(s[p + 2], 'Ê')) && CiAt(s, p + 3, "NCIAS")
     && var j := SpanEnd(s, p + 8, IsSpace); j > p + 8 && AreaNameAt(s, j))
    || CiAt(s, p, "LINGUAGENS")
    || (p + 10 <= |s| && CiAt(s, p, "MATEM") && (CiEq(s[p + 5], 'A') || CiEq(s[p + 5], 'Á')) && CiAt(s, p + 6, "TICA"))
    || CiAt(s, p, "REDAÇÃO")
  }

  /** AREA_HEADER_RE.search(s) finds a match. */
  predicate ContainsAreaHeader(s: seq<char>) {
    exists p :: 0 <= p < |s| && AreaHeaderAt(s, p)
  }

  /** QUESTOES_RANGE_RE at position p: `Questões?\s+de\s+\d+\s+a\s+\d+` (IGNORECASE). */
  predicate RangeAt(s: seq<char>, p: nat) {
    CiAt(s, p, "QUESTÕE")
    && var q := if p + 7 < |s| && CiEq(s[p + 7], 'S') then p + 8 else p + 7;
    var j := SpanEnd(s, q, IsSpace);
    j > q && CiAt(s, j, "DE")
    && var k := SpanEnd(s, j + 2, IsSpace);
    var m := SpanEnd(s, k, IsDigit);
    k > j + 2 && m > k
    && var n := SpanEnd(s, m, IsSpace);
    n > m && n < |s| && CiEq(s[n], 'A')
    && var o := SpanEnd(s, n + 1, IsSpace);
    o > n + 1 && o < |s| && IsDigit(s[o])
  }

  /** QUESTOES_RANGE_RE.search(s) finds a match. */
  predicate ContainsRange(s: seq<char>) {
    exists p :: 0 <= p < |s| && RangeAt(s, p)
  }

  // ---------------------------------------------------------------------------
  // Noise patterns (teste2.py:47-57), all IGNORECASE and matched at position 0
  // ---------------------------------------------------------------------------

  predicate IsAsciiAlnum(c: char) { ('a' <= c <= 'z') || ('A' <= c <= 'Z') || IsDigit(c) }

  /** `[ºo°]` under IGNORECASE. */
  predicate OrdinalMark(c: char) { c == 'º' || CiEq(c, 'o') || c == '°' }

  const Colours: seq<seq<char>> := ["AZUL", "AMARELO", "BRANCO", "ROSA", "CINZA", "VERDE", "LARANJA"]

  /** `^\*[A-Z0-9]{4,}\*$`: watermark codes such as *AZUL75SAB2*. */
  predicate NoiseMarker(s: seq<char>) {
    |s| >= 1 && s[0] == '*'
    && var j := SpanEnd(s, 1, IsAsciiAlnum);
    j - 1 >= 4 && j < |s| && s[j] == '*' && AtEnd(s, j + 1)
  }

  /** `PÁGINA\s*\d` at position p. */
  predicate PageNumberAt(s: seq<char>, p: nat) {
    CiAt(s, p, "PÁGINA") && var r := SpanEnd(s, p + 6, IsSpace); r < |s| && IsDigit(s[r])
  }

  /** `^(CH|CN|LC|MT)\s*[-–]\s*\d[ºo°]\s*dia.*página\s*\d+`: booklet footers; not end-anchored. */
  predicate NoiseFooter(s: seq<char>) {
    (CiAt(s, 0, "CH") || CiAt(s, 0, "CN") || CiAt(s, 0, "LC") || CiAt(s, 0, "MT"))
    && var a := SpanEnd(s, 2, IsSpace);
    a < |s| && (s[a] == '-' || s[a] == '–')
    && var b := SpanEnd(s, a + 1, IsSpace);
    b + 1 < |s| && IsDigit(s[b]) && OrdinalMark(s[b + 1])
    && var c := SpanEnd(s, b + 2, IsSpace);
    CiAt(s, c, "DIA")
    && var e := SpanEnd(s, c + 3, NotNewline);
    exists p :: c + 3 <= p <= e && PageNumberAt(s, p)
  }

  /** `^\d{4}$`: a bare year. */
  predicate NoiseYear(s: seq<char>) {
    (|s| == 4 || (|s| == 5 && s[4] == '\n')) && IsDigit(s[0]) && IsDigit(s[1]) && IsDigit(s[2]) && IsDigit(s[3])
  }

  /** `^enem\s*\d*$`: the exam logo. */
  predicate NoiseEnem(s: seq<char>) {
    CiAt(s, 0, "ENEM") && var j := SpanEnd(s, 4, IsSpace); AtEnd(s, SpanEnd(s, j, IsDigit))
  }

  /** `\d[ºo°]\s*DIA` at position p: the end of the match. */
  function DayMarkEnd(s: seq<char>, p: nat): (r: Option<nat>)
    ensures r.Some? ==> p < r.value <= |s|
  {
    if p + 2 <= |s| && IsDigit(s[p]) && OrdinalMark(s[p + 1]) then
      var j := SpanEnd(s, p + 2, IsSpace);
      if CiAt(s, j, "DIA") then Some(j + 3) else None
    else None
  }

  /** `^\d[ºo°]\s*DIA\s*$`: a bare "1º DIA". */
  predicate NoiseDay(s: seq<char>) {
    var e := DayMarkEnd(s, 0); e.Some? && AllSpace(s[e.value..])
  }

  /** `^CADERNO\s*$`. */
  predicate NoiseCaderno(s: seq<char>) {
    CiAt(s, 0, "CADERNO") && AllSpace(s[7..])
  }

  /** `^\d+\s*$`: a bare number. */
  predicate NoiseNumber(s: seq<char>) {
    var j := SpanEnd(s, 0, IsDigit); j >= 1 && AllSpace(s[j..])
  }

  /** `^(AZUL|AMARELO|BRANCO|ROSA|CINZA|VERDE|LARANJA)\s*$`: a bare booklet colour. */
  predicate NoiseColour(s: seq<char>) {
    exists i :: 0 <= i < |Colours| && CiAt(s, 0, Colours[i]) && AllSpace(s[|Colours[i]|..])
  }

  /** Some entry of NOISE_RE matches s. */
  predicate MatchesNoisePattern(s: seq<char>) {
    NoiseMarker(s) || NoiseFooter(s) || NoiseYear(s) || NoiseEnem(s)
    || NoiseDay(s) || NoiseCaderno(s) || NoiseNumber(s) || NoiseColour(s)
  }

  // ---------------------------------------------------------------------------
  // Patterns of the block formatter (teste2.py:300-302, 342, 374)
  // ---------------------------------------------------------------------------

  predicate IsRoman(c: char) { CiEq(c, 'I') || CiEq(c, 'V') || CiEq(c, 'X') }

  const FigureWords: seq<seq<char>> := ["QUADRO", "TABELA", "FIGURA", "GRÁFICO"]

  /** `^(TEXTO\s+[IVX]+|QUADRO|TABELA|FIGURA|GRÁFICO)\s*$` (IGNORECASE). */
  predicate IsSubHeader(s: seq<char>) {
    (CiAt(s, 0, "TEXTO")
     && var j := SpanEnd(s, 5, IsSpace);
     var k := SpanEnd(s, j, IsRoman);
     j > 5 && k > j && AllSpace(s[k..]))
    || (exists i :: 0 <= i < |FigureWords| && CiAt(s, 0, FigureWords[i]) && AllSpace(s[|FigureWords[i]|..]))
  }

  predicate IsAuthorCap(c: char) {
    ('A' <= c <= 'Z') || c == 'Á' || c == 'À' || c == 'Ã' || c == 'É' || c == 'Ê' || c == 'Í' || c == 'Ó' || c == 'Õ' || c == 'Ú'
  }

  /** `^[A-ZÁÀÃÉÊÍÓÕÚ]{2,}[,.]` (case-sensitive): a surname in capitals. */
  predicate StartsWithAuthor(s: seq<char>) {
    var j := SpanEnd(s, 0, IsAuthorCap); j >= 2 && j < |s| && (s[j] == ',' || s[j] == '.')
  }

  /** `(Disponível em:|Acesso em:|São Paulo:|Rio de Janeiro:|\.?\s*In:\s|Apud:)` at position p. */
  predicate CitationAt(s: seq<char>, p: nat) {
    LitAt(s, p, "Disponível em:") || LitAt(s, p, "Acesso em:") || LitAt(s, p, "São Paulo:")
    || LitAt(s, p, "Rio de Janeiro:") || (LitAt(s, p, "In:") && p + 3 < |s| && IsSpace(s[p + 3]))
    || LitAt(s, p, "Apud:")
  }

  predicate ContainsCitation(s: seq<char>) {
    exists p :: 0 <= p < |s| && CitationAt(s, p)
  }

  /** `^[a-záàãéêíóõú(]` (case-sensitive). */
  predicate StartsLowerOrParen(s: seq<char>) {
    |s| >= 1 && (('a' <= s[0] <= 'z') || s[0] == 'á' || s[0] == 'à' || s[0] == 'ã' || s[0] == 'é'
                 || s[0] == 'ê' || s[0] == 'í' || s[0] == 'ó' || s[0] == 'õ' || s[0] == 'ú' || s[0] == '(')
  }

  /** `re.sub(r"\s+", " ", s)`: every run of whitespace becomes one space. */
  function CollapseSpaces(s: seq<char>): (r: seq<char>)
    ensures |r| <= |s|
    decreases |s|
  {
    if s == [] then []
    else if IsSpace(s[0]) then " " + CollapseSpaces(s[SpanEnd(s, 0, IsSpace)..])
    else [s[0]] + CollapseSpaces(s[1..])
  }

  // ---------------------------------------------------------------------------
  // Patterns of extract_metadata (teste2.py:407-409)
  // ---------------------------------------------------------------------------

  /** `^(19|20)\d{2}$`. */
  predicate IsYearLine(s: seq<char>) {
    (|s| == 4 || (|s| == 5 && s[4] == '\n'))
    && ((s[0] == '1' && s[1] == '9') || (s[0] == '2' && s[1] == '0')) && IsDigit(s[2]) && IsDigit(s[3])
  }

  /** `re.search(r"\d[ºo°]\s*DIA", s, re.IGNORECASE).group(0)`, searching from position p. */
  function FindDayMark(s: seq<char>, p: nat): Option<seq<char>>
    decreases |s| - p
  {
    if p >= |s| then None
    else match DayMarkEnd(s, p)
      case Some(e) => Some(s[p..e])
      case None => FindDayMark(s, p + 1)
  }
}
