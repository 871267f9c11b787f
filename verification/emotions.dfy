/** `EmotionAnalyzer` of `chatbot/emotions.py`: a thin wrapper over a
    text-classification pipeline. The pipeline is a collaborator; what it
    returns (or that it raised) for a text is a parameter. */
module Emotions {
  import opened Outcomes
  import opened Text

  const DefaultModel: string := "j-hartmann/emotion-english-distilroberta-base"
  const Neutral: string := "neutral"

  /** One classifier prediction: a label (its `name`) and its confidence score. */
  datatype Prediction = Prediction(name: string, score: real)

  /** What the pipeline did with one text: raised, or returned a list of
      predictions (possibly empty). */
  datatype PipelineOutcome = PipelineRaised | Predicted(predictions: seq<Prediction>)

  /** What the pipeline did with a list of texts: raised, or returned one
      entry per text, where an empty prediction dict is `None`. */
  datatype BatchOutcome = BatchRaised | BatchPredicted(predictions: seq<Option<Prediction>>)

  /** The argument of `analyze_batch`, which may not even be a list. */
  datatype BatchInput = NotAList | List(items: seq<Value>)

  /** A constructed analyzer; the pipeline object itself is a collaborator. */
  datatype Analyzer = Analyzer(modelName: string)

  /** `EmotionAnalyzer.__init__`: a pipeline construction failure is re-raised
      as a RuntimeError; otherwise the analyzer holds the model name. */
  function NewAnalyzer(modelName: string, pipelineBuilt: bool): (r: Result<Analyzer>)
    ensures r.Success? <==> pipelineBuilt
    ensures r.Success? ==> r.value.modelName == modelName
    ensures r.Failure? ==> r.error == RuntimeError
  {
    if pipelineBuilt then Success(Analyzer(modelName)) else Failure(RuntimeError)
  }

  /** `EmotionAnalyzer.analyze`: the lowered label and score of the first
      prediction, or neutral with zero confidence when there is none. A
      pipeline exception is NOT contained: the handler refers to
      `self.logger`, which the class never sets, so `analyze` itself fails
      with an AttributeError. */
  function Analyze(outcome: PipelineOutcome): (r: Result<(string, real)>)
    ensures r.Failure? <==> outcome.PipelineRaised?
    ensures r.Failure? ==> r.error == AttributeError
    ensures r.Success? ==> IsLower(r.value.0)
    ensures outcome.Predicted? && |outcome.predictions| == 0 ==> r == Success((Neutral, 0.0))
    ensures outcome.Predicted? && |outcome.predictions| > 0 ==>
      r.Success? && SameIgnoringCase(r.value.0, outcome.predictions[0].name)
      && r.value.1 == outcome.predictions[0].score
  {
    match outcome
    case PipelineRaised => Failure(AttributeError)
    case Predicted(ps) =>
      if |ps| > 0 then
        LowerIsLower(ps[0].name);
        Success((Lower(ps[0].name), ps[0].score))
      else
        assert IsLower(Neutral);
        Success((Neutral, 0.0))
  }

  /** The validation `analyze_batch` performs before calling the pipeline:
      a list whose every element is a string with some non-whitespace. */
  predicate ValidBatch(input: BatchInput) {
    input.List? && forall k :: 0 <= k < |input.items| ==> input.items[k].Str? && Strip(input.items[k].s) != []
  }

  /** The texts of a validated batch. */
  function Texts(input: BatchInput): (ts: seq<string>)
    requires ValidBatch(input)
    ensures |ts| == |input.items|
    ensures forall k :: 0 <= k < |ts| ==> Str(ts[k]) == input.items[k]
  {
    seq(|input.items|, k requires 0 <= k < |input.items| => input.items[k].s)
  }

  /** The label one batch entry contributes. */
  function BatchLabel(p: Option<Prediction>): string {
    match p
    case Some(pred) => Lower(pred.name)
    case None => Neutral
  }

  /** `EmotionAnalyzer.analyze_batch`: ValueError on invalid input; otherwise
      one lowered label per pipeline entry ("neutral" for an empty one), or
      "neutral" for every text when the pipeline raised. */
  function AnalyzeBatch(input: BatchInput, pipeline: seq<string> -> BatchOutcome): (r: Result<seq<string>>)
    ensures r.Failure? <==> !ValidBatch(input)
    ensures r.Failure? ==> r.error == ValueError
    ensures r.Success? ==> forall k :: 0 <= k < |r.value| ==> IsLower(r.value[k])
    ensures r.Success? && pipeline(Texts(input)).BatchRaised? ==>
      |r.value| == |input.items| && forall k :: 0 <= k < |r.value| ==> r.value[k] == Neutral
    ensures r.Success? && pipeline(Texts(input)).BatchPredicted? ==>
      var ps := pipeline(Texts(input)).predictions;
      |r.value| == |ps| &&
      forall k :: 0 <= k < |ps| ==>
        (ps[k].None? ==> r.value[k] == Neutral) &&
        (ps[k].Some? ==> SameIgnoringCase(r.value[k], ps[k].value.name))
  {
    if !ValidBatch(input) then Failure(ValueError)
    else
      var r := match pipeline(Texts(input))
        case BatchRaised => seq(|input.items|, _ => Neutral)
        case BatchPredicted(ps) => seq(|ps|, k requires 0 <= k < |ps| => BatchLabel(ps[k]));
      assert IsLower(Neutral);
      forall k | 0 <= k < |r| ensures IsLower(r[k]) {
        if pipeline(Texts(input)).BatchPredicted? && pipeline(Texts(input)).predictions[k].Some? {
          LowerIsLower(pipeline(Texts(input)).predictions[k].value.name);
        }
      }
      Success(r)
  }

  /** When the pipeline answers once per text, the batch result has one
      label per input text, whatever the pipeline answered. */
  lemma BatchPreservesLength(input: BatchInput, pipeline: seq<string> -> BatchOutcome)
    requires ValidBatch(input)
    requires pipeline(Texts(input)).BatchPredicted? ==>
      |pipeline(Texts(input)).predictions| == |input.items|
    ensures AnalyzeBatch(input, pipeline).Success?
    ensures |AnalyzeBatch(input, pipeline).value| == |input.items|
  {
  }

  /** The empty list passes validation. */
  lemma EmptyBatchIsValid(pipeline: seq<string> -> BatchOutcome)
    ensures AnalyzeBatch(List([]), pipeline).Success?
  {
  }
}
