/** The `/api/v1/predict` handler of tempCodeRunnerFile.py, an earlier
    revision of the app.py handler that reads and assembles the same fields
    and maps the label the same way, but never quotes a schedule. */
module EarlierRevision {
  import opened Base
  import opened Pipeline
  import App
  import Pricing

  function Predict(body: Body, classify: seq<int> -> int): (r: Response)
    ensures r.ErrorReply? <==> !AllConvertible(body)
    ensures r.Prediction? ==> r.message == SuccessMessage
    ensures r.Prediction? ==> r.calcResult.None?
    ensures r.Prediction? ==> r.predictionText == Approved || r.predictionText == Rejected
  {
    ExtractSucceedsIff(body);
    match Extract(body)
    case Err(failure) => ErrorReply(failure)
    case Ok(a) =>
      Prediction(SuccessMessage, PredictionText(classify(Features(a))), Echo(a), None)
  }

  /** The reply with any schedule removed. */
  function WithoutSchedule(r: Response): Response
  {
    match r
    case Prediction(message, text, inputData, _) => Prediction(message, text, inputData, None)
    case ErrorReply(_) => r
  }

  /** Both revisions give the same reply to the same request and the same
      classifier, apart from the schedule app.py adds on approval: the same
      error cases for the fields, the same vector shown to the classifier,
      the same decision and the same echo. The one reply that differs
      otherwise is app.py's error for an approved credit amount beyond the
      float range, which this revision approves. */
  lemma RevisionsAgree(body: Body, classify: seq<int> -> int)
    ensures Predict(body, classify) == WithoutSchedule(App.Predict(body, classify)) <==>
      App.Predict(body, classify) != ErrorReply(PricingFailed(Pricing.FloatOverflow))
    ensures App.Predict(body, classify) == ErrorReply(PricingFailed(Pricing.FloatOverflow)) ==>
      && Predict(body, classify).Prediction?
      && Predict(body, classify).predictionText == Approved
  {
  }

  /** On a well-formed request the classifier is asked about the request's
      fields in `FieldNames` order, and the reply approves exactly when it
      answers 1. */
  lemma ApprovedExactlyOnLabelOne(body: Body, classify: seq<int> -> int, v: seq<int>)
    requires ReadAll(body, FieldNames) == Ok(v)
    ensures Predict(body, classify).Prediction?
    ensures Predict(body, classify).predictionText == Approved <==> classify(v) == 1
  {
    ExtractReadsFieldNamesInOrder(body);
  }

  /** `input_data` repeats each extracted field, 0 for a missing one,
      under its echo key. */
  lemma EchoesExtractedFields(body: Body, classify: seq<int> -> int, i: int)
    requires Predict(body, classify).Prediction?
    requires 0 <= i < |FieldNames|
    ensures body.Object?
    ensures EchoLabels[i] in Predict(body, classify).inputData
    ensures FieldNames[i] in body.fields ==>
      body.fields[FieldNames[i]] == Integral(Predict(body, classify).inputData[EchoLabels[i]])
    ensures FieldNames[i] !in body.fields ==> Predict(body, classify).inputData[EchoLabels[i]] == 0
  {
    ExtractSucceedsIff(body);
    FeaturesFollowRequest(body, i);
  }

  /** A request with a field `int()` rejects gets the error reply naming
      that field (the first such in `FieldNames` order), whatever the
      classifier: the classifier is not consulted. */
  lemma ConversionFailureSkipsClassifier(body: Body, c1: seq<int> -> int, c2: seq<int> -> int)
    requires !AllConvertible(body)
    ensures Predict(body, c1).ErrorReply?
    ensures Predict(body, c1) == Predict(body, c2)
    ensures body.NotObject? ==> Predict(body, c1).failure == BodyNotObject
    ensures body.Object? ==>
      exists k :: && 0 <= k < |FieldNames|
                  && Predict(body, c1).failure == NotAnInteger(FieldNames[k])
                  && Rejects(body.fields, FieldNames[k])
                  && forall j :: 0 <= j < k ==> !Rejects(body.fields, FieldNames[j])
  {
    ExtractSucceedsIff(body);
    ExtractReportsFirstFailure(body);
  }
}
