/** `NLPProcessor` of `chatbot/nlp_processing.py`, reduced to its failure
    behaviour: the NLTK stop-word corpus and the spelling library are
    collaborators whose answers are parameters. */
module Nlp {
  import opened Outcomes

  /** A constructed processor: the English stop words. */
  datatype Processor = Processor(stopWords: set<string>)

  /** `NLPProcessor.__init__`: the module's `nltk.download` calls report a
      failed download without raising, so a missing corpus surfaces only
      here, when `stopwords.words` raises LookupError. `corpus` is the word
      list NLTK found, if any. */
  function NewProcessor(corpus: Option<seq<string>>): (r: Result<Processor>)
    ensures r.Failure? <==> corpus.None?
    ensures r.Failure? ==> r.error == LookupError
    ensures r.Success? ==> forall w :: w in r.value.stopWords <==> w in corpus.value
  {
    match corpus
    case None => Failure(LookupError)
    case Some(words) => Success(Processor(set w | w in words))
  }

  /** What the spelling library did with one text. */
  datatype CorrectOutcome = Corrected(text: string) | CorrectionRaised

  /** `NLPProcessor.correct_typos`: the library's correction, or the input
      itself when the library raised. It never fails. */
  function CorrectTypos(text: string, outcome: CorrectOutcome): (r: string)
    ensures outcome.CorrectionRaised? ==> r == text
    ensures outcome.Corrected? ==> r == outcome.text
  {
    match outcome
    case Corrected(fixed) => fixed
    case CorrectionRaised => text
  }
}
