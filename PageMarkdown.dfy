/**
 * gerar_markdown (teste.py:120-130): the questions of one page, each already
 * carrying its title, statement, image paths and choices, are written one
 * after another as a Markdown text. The text is built by appending to a
 * string inside a loop over the questions, with two inner loops for the
 * images and the choices.
 */
module PageMarkdown {
  import opened Base

  /** One question as the page extractor hands it over. */
  datatype Question = Question(
    title: seq<char>,
    statement: seq<char>,
    images: seq<seq<char>>,
    choices: seq<seq<char>>)

  const Rule: seq<char> := "\n---\n\n"

  /** The rule, the level-3 title and the stripped statement of a question. */
  function Heading(q: Question): seq<char> {
    Rule + "### " + q.title + "\n\n" + Strip(q.statement) + "\n\n"
  }

  /** The k-th image (counting from 0) is shown as "Imagem k+1". */
  function ImageLine(k: nat, path: seq<char>): seq<char> {
    "![Imagem " + NatToString(k + 1) + "](" + path + ")\n\n"
  }

  /** The texts of a list, one after another, in order. */
  function Joined<T>(xs: seq<T>, text: T -> seq<char>): seq<char> {
    if xs == [] then [] else Joined(xs[..|xs| - 1], text) + text(xs[|xs| - 1])
  }

  /** As Joined, but each text also receives its position, counted from 0. */
  function Numbered(xs: seq<seq<char>>, text: (nat, seq<char>) -> seq<char>): seq<char> {
    if xs == [] then [] else Numbered(xs[..|xs| - 1], text) + text(|xs| - 1, xs[|xs| - 1])
  }

  function ImagesText(images: seq<seq<char>>): seq<char> {
    Numbered(images, ImageLine)
  }

  function ChoiceLine(choice: seq<char>): seq<char> {
    "- " + choice + "\n"
  }

  function ChoicesText(choices: seq<seq<char>>): seq<char> {
    Joined(choices, ChoiceLine)
  }

  /** Everything one question contributes: heading, images, then choices. */
  function QuestionText(q: Question): seq<char> {
    Heading(q) + ImagesText(q.images) + ChoicesText(q.choices)
  }

  /** The document for a list of questions, question after question. */
  function MarkdownSpec(qs: seq<Question>): seq<char> {
    Joined(qs, QuestionText)
  }

  lemma JoinedSnoc<T>(xs: seq<T>, i: nat, text: T -> seq<char>)
    requires i < |xs|
    ensures Joined(xs[..i + 1], text) == Joined(xs[..i], text) + text(xs[i])
  {
    assert xs[..i + 1][..i] == xs[..i];
  }

  lemma NumberedSnoc(xs: seq<seq<char>>, i: nat, text: (nat, seq<char>) -> seq<char>)
    requires i < |xs|
    ensures Numbered(xs[..i + 1], text) == Numbered(xs[..i], text) + text(i, xs[i])
  {
    assert xs[..i + 1][..i] == xs[..i];
  }

  /** The inner loop over the images of one question. */
  method AppendImages(md0: seq<char>, images: seq<seq<char>>) returns (md: seq<char>)
    ensures md == md0 + ImagesText(images)
  {
    md := md0;
    for k := 0 to |images|
      invariant md == md0 + ImagesText(images[..k])
    {
      NumberedSnoc(images, k, ImageLine);
      md := md + ImageLine(k, images[k]);
    }
    assert images[..|images|] == images;
  }

  /** The inner loop over the choices of one question. */
  method AppendChoices(md0: seq<char>, choices: seq<seq<char>>) returns (md: seq<char>)
    ensures md == md0 + ChoicesText(choices)
  {
    md := md0;
    for k := 0 to |choices|
      invariant md == md0 + ChoicesText(choices[..k])
    {
      JoinedSnoc(choices, k, ChoiceLine);
      md := md + ChoiceLine(choices[k]);
    }
    assert choices[..|choices|] == choices;
  }

  /** The body of the outer loop: one question's rule, title, statement, images and choices. */
  method AppendQuestion(md0: seq<char>, q: Question) returns (md: seq<char>)
    ensures md == md0 + QuestionText(q)
  {
    md := md0 + Rule;
    md := md + "### " + q.title + "\n\n";
    md := md + Strip(q.statement) + "\n\n";
    assert md == md0 + Heading(q);
    md := AppendImages(md, q.images);
    AppendAssoc(md0, Heading(q), ImagesText(q.images));
    md := AppendChoices(md, q.choices);
    AppendAssoc(md0, Heading(q) + ImagesText(q.images), ChoicesText(q.choices));
  }

  /** The Markdown text of a page's questions. */
  method GerarMarkdown(qs: seq<Question>) returns (md: seq<char>)
    ensures md == MarkdownSpec(qs)
  {
    md := "";
    for i := 0 to |qs|
      invariant md == MarkdownSpec(qs[..i])
    {
      md := AppendQuestion(md, qs[i]);
      JoinedSnoc(qs, i, QuestionText);
    }
    assert qs[..|qs|] == qs;
  }

  lemma {:induction false} JoinedAppend<T>(a: seq<T>, b: seq<T>, text: T -> seq<char>)
    ensures Joined(a + b, text) == Joined(a, text) + Joined(b, text)
    decreases |b|
  {
    if b == [] {
      assert a + b == a;
    } else {
      assert (a + b)[..|a + b| - 1] == a + b[..|b| - 1];
      JoinedAppend(a, b[..|b| - 1], text);
    }
  }

  lemma {:induction false} JoinedInOrder<T>(xs: seq<T>, k: nat, text: T -> seq<char>)
    requires k < |xs|
    ensures Joined(xs[..k], text) + text(xs[k]) <= Joined(xs, text)
    decreases |xs|
  {
    var n := |xs| - 1;
    if k == n {
      assert xs[..n] == xs[..|xs| - 1];
    } else {
      var init := xs[..n];
      JoinedInOrder(init, k, text);
      assert init[..k] == xs[..k] && init[k] == xs[k];
    }
  }

  lemma {:induction false} NumberedInOrder(xs: seq<seq<char>>, k: nat, text: (nat, seq<char>) -> seq<char>)
    requires k < |xs|
    ensures Numbered(xs[..k], text) + text(k, xs[k]) <= Numbered(xs, text)
    decreases |xs|
  {
    var n := |xs| - 1;
    if k == n {
      assert xs[..n] == xs[..|xs| - 1];
    } else {
      var init := xs[..n];
      NumberedInOrder(init, k, text);
      assert init[..k] == xs[..k] && init[k] == xs[k];
    }
  }

  /** The document for two lists of questions is the two documents in a row. */
  lemma MarkdownAppend(a: seq<Question>, b: seq<Question>)
    ensures MarkdownSpec(a + b) == MarkdownSpec(a) + MarkdownSpec(b)
  {
    JoinedAppend(a, b, QuestionText);
  }

  /** No questions give the empty text; otherwise the text opens with the rule. */
  lemma {:induction false} MarkdownStartsWithRule(qs: seq<Question>)
    ensures qs == [] <==> MarkdownSpec(qs) == []
    ensures qs != [] ==> Rule <= MarkdownSpec(qs)
  {
    if qs != [] {
      JoinedInOrder(qs, 0, QuestionText);
      assert qs[..0] == [];
      assert Rule <= QuestionText(qs[0]);
    }
  }

  /**
   * The i-th question's text follows the texts of the questions before it:
   * the questions appear in the order given.
   */
  lemma QuestionInOrder(qs: seq<Question>, i: nat)
    requires i < |qs|
    ensures MarkdownSpec(qs[..i]) + QuestionText(qs[i]) <= MarkdownSpec(qs)
  {
    JoinedInOrder(qs, i, QuestionText);
  }

  /** The images appear in their order, the k-th (from 0) labelled k+1. */
  lemma ImageInOrder(images: seq<seq<char>>, k: nat)
    requires k < |images|
    ensures ImagesText(images[..k]) + ImageLine(k, images[k]) <= ImagesText(images)
  {
    NumberedInOrder(images, k, ImageLine);
  }

  /** The choices appear in their order, each as one list item. */
  lemma ChoiceInOrder(choices: seq<seq<char>>, k: nat)
    requires k < |choices|
    ensures ChoicesText(choices[..k]) + ChoiceLine(choices[k]) <= ChoicesText(choices)
  {
    JoinedInOrder(choices, k, ChoiceLine);
  }

  /** A question's text opens with the rule and its title, and its choices come last. */
  lemma QuestionLayout(q: Question)
    ensures Rule + "### " + q.title + "\n\n" <= QuestionText(q)
    ensures Heading(q) + ImagesText(q.images) <= QuestionText(q)
    ensures QuestionText(q)[|QuestionText(q)| - |ChoicesText(q.choices)|..] == ChoicesText(q.choices)
  {
    var h := Rule + "### " + q.title + "\n\n";
    var rest := Strip(q.statement) + "\n\n" + ImagesText(q.images) + ChoicesText(q.choices);
    assert QuestionText(q) == h + rest;
  }
}
