/**
 The deterministic FAQ search: every FAQ in list order, every trigger in order, and the rendered
 reply of a FAQ whose trigger reaches the threshold. A reply that renders to the empty text is
 falsy in the source's language, so the outer loop goes on after it.
 */
module FaqSearch {
  import opened Basics
  import opened Similarity
  import opened TextNormal

  datatype Faq = Faq(triggers: seq<string>, reply: map<string, string>)

  /**
   What the page knows while it answers: text folding, similarity score, Markdown rendering,
   FAQ list and current language.
   */
  datatype Page = Page(fold: string -> string, score: (string, string) -> real,
                       render: string -> string, faqs: seq<Faq>, lang: string)

  /** The page scores with `CalculateSimilarity`; the search itself works for any score. */
  ghost predicate Live(p: Page) {
    forall a, b {:trigger Similar(p.fold, a, b)} :: p.score(a, b) == Similar(p.fold, a, b)
  }

  function LivePage(fold: string -> string, render: string -> string, faqs: seq<Faq>, lang: string): (p: Page)
    ensures Live(p)
  {
    Page(fold, (a, b) => Similar(fold, a, b), render, faqs, lang)
  }

  /** `faq.reply[currentLang] || faq.reply.pt`, where a missing text renders like the empty one. */
  function RawReply(faq: Faq, lang: string): string {
    if lang in faq.reply && faq.reply[lang] != "" then faq.reply[lang]
    else if "pt" in faq.reply then faq.reply["pt"]
    else ""
  }

  function Rendered(p: Page, k: nat): string
    requires k < |p.faqs|
  {
    p.render(RawReply(p.faqs[k], p.lang))
  }

  /**
   The answer is the FAQ's text in the visitor's language; where that is missing or empty, its
   Portuguese text, and where that is missing too, nothing.
   */
  predicate SpeaksFor(p: Page, k: nat, answer: string)
    requires k < |p.faqs|
  {
    var texts := p.faqs[k].reply;
    && (p.lang in texts && texts[p.lang] != "" ==> answer == p.render(texts[p.lang]))
    && ((p.lang in texts ==> texts[p.lang] == "") && "pt" in texts ==> answer == p.render(texts["pt"]))
    && ((p.lang in texts ==> texts[p.lang] == "") && "pt" !in texts ==> answer == p.render(""))
  }

  lemma RenderedSpeaks(p: Page, k: nat)
    requires k < |p.faqs|
    ensures SpeaksFor(p, k, Rendered(p, k))
  {
  }

  /** `p.faqs[k]` with another text in one language. */
  function Retold(p: Page, k: nat, lang: string, text: string): Page
    requires k < |p.faqs|
  {
    p.(faqs := p.faqs[k := p.faqs[k].(reply := p.faqs[k].reply[lang := text])])
  }

  predicate Matches(p: Page, k: nat, question: string)
    requires k < |p.faqs|
  {
    exists t :: 0 <= t < |p.faqs[k].triggers| &&
                p.score(question, p.faqs[k].triggers[t]) >= THRESHOLD
  }

  predicate Answers(p: Page, k: nat, question: string)
    requires k < |p.faqs|
  {
    Matches(p, k, question) && Rendered(p, k) != ""
  }

  predicate Truthy(answer: Option<string>) { answer.Some? && answer.value != "" }

  method ScoreOf(p: Page, question: string, trigger: string) returns (sim: real)
    requires Live(p)
    ensures sim == p.score(question, trigger)
  {
    sim := CalculateSimilarity(p.fold, question, trigger);
  }

  method MatchFaq(p: Page, k: nat, question: string) returns (answer: Option<string>)
    requires Live(p) && k < |p.faqs|
    ensures answer == if Matches(p, k, question) then Some(Rendered(p, k)) else None
    ensures answer.Some? ==> SpeaksFor(p, k, answer.value)
  {
    RenderedSpeaks(p, k);
    answer := None;
    for t := 0 to |p.faqs[k].triggers|
      invariant forall u :: 0 <= u < t ==> p.score(question, p.faqs[k].triggers[u]) < THRESHOLD
      invariant answer == None
    {
      var sim := ScoreOf(p, question, p.faqs[k].triggers[t]);
      if sim >= THRESHOLD {
        answer := Some(p.render(RawReply(p.faqs[k], p.lang)));
        break;
      }
    }
  }

  /**
   The reply of the first FAQ from `k` on that matches and renders to something. None means that
   no FAQ does both, and the question goes to the language model.
   */
  function Search(p: Page, question: string, k: nat): Option<string>
    requires k <= |p.faqs|
    decreases |p.faqs| - k
  {
    if k == |p.faqs| then None
    else if Answers(p, k, question) then Some(Rendered(p, k))
    else Search(p, question, k + 1)
  }

  lemma {:induction false} SearchFindsFirst(p: Page, question: string, k: nat) returns (i: nat)
    requires k <= |p.faqs|
    ensures k <= i <= |p.faqs| && forall j :: k <= j < i ==> !Answers(p, j, question)
    ensures Search(p, question, k) == if i < |p.faqs| then Some(Rendered(p, i)) else None
    ensures i < |p.faqs| ==> Answers(p, i, question)
    decreases |p.faqs| - k
  {
    if k == |p.faqs| || Answers(p, k, question) {
      i := k;
    } else {
      i := SearchFindsFirst(p, question, k + 1);
    }
  }

  /**
   The two loops: a truthy answer is the one `Search` describes, given by FAQ `at` in the visitor's
   language, and nothing before `at` answers; otherwise there is none.
   */
  method ProcessQuestion(p: Page, question: string) returns (answer: Option<string>, ghost at: nat)
    requires Live(p)
    ensures Search(p, question, 0) == if Truthy(answer) then answer else None
    ensures Truthy(answer) ==> at < |p.faqs| && Matches(p, at, question) && SpeaksFor(p, at, answer.value)
    ensures Truthy(answer) <==> at < |p.faqs|
    ensures at <= |p.faqs| && forall k :: 0 <= k < at && Matches(p, k, question) ==> SpeaksFor(p, k, "")
  {
    answer, at := None, 0;
    for k := 0 to |p.faqs|
      invariant !Truthy(answer)
      invariant at == k
      invariant Search(p, question, 0) == Search(p, question, k)
      invariant forall j :: 0 <= j < k && Matches(p, j, question) ==> SpeaksFor(p, j, "")
    {
      var found := MatchFaq(p, k, question);
      if found.Some? {
        answer := found;
      }
      if Truthy(answer) {
        break;
      }
      at := k + 1;
    }
  }

  // ----- When the first matching FAQ answers -----

  /** The first FAQ from `k` on that matches. */
  function FirstMatch(p: Page, question: string, k: nat): (r: Option<nat>)
    requires k <= |p.faqs|
    ensures r.None? ==> forall j :: k <= j < |p.faqs| ==> !Matches(p, j, question)
    ensures r.Some? ==> k <= r.value < |p.faqs| && Matches(p, r.value, question) &&
                        forall j :: k <= j < r.value ==> !Matches(p, j, question)
    decreases |p.faqs| - k
  {
    if k == |p.faqs| then None
    else if Matches(p, k, question) then Some(k)
    else FirstMatch(p, question, k + 1)
  }

  lemma {:induction false} SearchSkipsSilent(p: Page, question: string, k: nat, m: nat)
    requires k <= m <= |p.faqs|
    requires forall j :: k <= j < m ==> !Answers(p, j, question)
    ensures Search(p, question, k) == Search(p, question, m)
    decreases m - k
  {
    if k < m {
      SearchSkipsSilent(p, question, k + 1, m);
    }
  }

  /**
   The search returns the reply of the first matching FAQ (and nothing without a match) exactly
   when that FAQ's reply does not render to the empty text.
   */
  lemma FirstMatchAnswers(p: Page, question: string)
    ensures var m := FirstMatch(p, question, 0);
            Search(p, question, 0) == (if m.Some? then Some(Rendered(p, m.value)) else None)
            <==> (m.Some? ==> Rendered(p, m.value) != "")
  {
    var m := FirstMatch(p, question, 0);
    var i := SearchFindsFirst(p, question, 0);
    if m.Some? {
      SearchSkipsSilent(p, question, 0, m.value);
    }
  }

  /** On a list in which every reply renders to something, the first matching FAQ always answers. */
  lemma SpokenFaqsAnswerFirst(p: Page, question: string)
    requires forall k :: 0 <= k < |p.faqs| ==> Rendered(p, k) != ""
    ensures var m := FirstMatch(p, question, 0);
            Search(p, question, 0) == if m.Some? then Some(Rendered(p, m.value)) else None
  {
    FirstMatchAnswers(p, question);
  }

  lemma {:induction false} SameAnswersSameSearch(p: Page, r: Page, question: string, k: nat)
    requires |p.faqs| == |r.faqs| && k <= |p.faqs|
    requires forall j :: k <= j < |p.faqs| ==> Rendered(p, j) == Rendered(r, j)
    requires forall j :: k <= j < |p.faqs| ==> (Matches(p, j, question) <==> Matches(r, j, question))
    ensures Search(p, question, k) == Search(r, question, k)
    decreases |p.faqs| - k
  {
    if k < |p.faqs| {
      SameAnswersSameSearch(p, r, question, k + 1);
    }
  }

  /** Where a FAQ has a text in the visitor's language, its other texts make no difference to the search. */
  lemma OtherLanguagesDoNotMatter(p: Page, question: string, k: nat, lang: string, text: string)
    requires k < |p.faqs| && lang != p.lang
    requires p.lang in p.faqs[k].reply && p.faqs[k].reply[p.lang] != ""
    ensures Search(Retold(p, k, lang, text), question, 0) == Search(p, question, 0)
  {
    var r := Retold(p, k, lang, text);
    forall j | 0 <= j < |p.faqs|
      ensures Rendered(p, j) == Rendered(r, j)
      ensures Matches(p, j, question) <==> Matches(r, j, question)
    {
      RenderedSpeaks(p, j);
      RenderedSpeaks(r, j);
    }
    SameAnswersSameSearch(p, r, question, 0);
  }

  /** A visitor for whom no FAQ has a text is answered like a Portuguese one. */
  lemma MissingLanguageIsPortuguese(p: Page, question: string)
    requires forall k :: 0 <= k < |p.faqs| && p.lang in p.faqs[k].reply ==> p.faqs[k].reply[p.lang] == ""
    ensures Search(p, question, 0) == Search(p.(lang := "pt"), question, 0)
  {
    var r := p.(lang := "pt");
    forall j | 0 <= j < |p.faqs|
      ensures Rendered(p, j) == Rendered(r, j)
      ensures Matches(p, j, question) <==> Matches(r, j, question)
    {
      RenderedSpeaks(p, j);
      RenderedSpeaks(r, j);
    }
    SameAnswersSameSearch(p, r, question, 0);
  }

  /** A list in which the first matching FAQ is passed over: its reply renders to nothing. */
  lemma SilentFaqIsPassedOver()
    ensures var p := LivePage(s => s, s => s, [Faq(["cv"], map["pt" := ""]), Faq(["cv"], map["pt" := "here"])], "pt");
            FirstMatch(p, "cv", 0) == Some(0) && Search(p, "cv", 0) == Some("here")
  {
    var p := LivePage(s => s, s => s, [Faq(["cv"], map["pt" := ""]), Faq(["cv"], map["pt" := "here"])], "pt");
    TriggerMatchesItself(p, 0, 0);
    TriggerMatchesItself(p, 1, 0);
    assert Rendered(p, 0) == "" && Rendered(p, 1) == "here";
    assert !Answers(p, 0, "cv") && Answers(p, 1, "cv");
  }

  /** The test against one trigger, in whole numbers: no division and no rounding is left. */
  lemma ScoreInWholeNumbers(p: Page, question: string, trigger: string)
    requires Live(p)
    ensures p.score(question, trigger) >= THRESHOLD <==>
              ClosePruned(Normalize(p.fold, question), Normalize(p.fold, trigger))
  {
    assert p.score(question, trigger) == Similar(p.fold, question, trigger);
    LengthPruning(Normalize(p.fold, question), Normalize(p.fold, trigger));
  }

  /** Asking one of the triggers word for word always matches its FAQ. */
  lemma TriggerMatchesItself(p: Page, k: nat, t: nat)
    requires Live(p) && k < |p.faqs| && t < |p.faqs[k].triggers|
    ensures Matches(p, k, p.faqs[k].triggers[t])
  {
    var trigger := p.faqs[k].triggers[t];
    assert p.score(trigger, trigger) == Similar(p.fold, trigger, trigger) == 1.0;
  }
}
