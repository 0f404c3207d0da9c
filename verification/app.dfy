/** The `/api/v1/predict` handler of app.py: read and assemble the
    applicant's fields, ask the classifier, and on approval quote the
    installment schedule. The classifier is a parameter: it maps the
    single-row feature vector to the label it predicts for that row. */
module App {
  import opened Base
  import opened Pipeline
  import Pricing

  /** The reply is an error exactly when a field fails conversion, or when
      an approved request's credit amount is too large to become a float,
      which makes the schedule loop raise. Otherwise `calc_result` is there
      exactly on approval, one line per listed tenor priced on the echoed
      credit amount. */
  function Predict(body: Body, classify: seq<int> -> int): (r: Response)
    ensures r.ErrorReply? <==>
      || !AllConvertible(body)
      || (&& classify(Features(Extract(body).value)) == 1
          && !Pricing.FloatConvertible(Extract(body).value.creditAmount))
    ensures r.ErrorReply? && AllConvertible(body) ==>
      r.failure == PricingFailed(Pricing.FloatOverflow)
    ensures r.Prediction? ==> r.message == SuccessMessage
    ensures r.Prediction? ==> "Credit Amount" in r.inputData
    ensures r.Prediction? ==> (r.calcResult.Some? <==> r.predictionText == Approved)
    ensures r.Prediction? && r.calcResult.Some? ==>
      && |r.calcResult.value| == |Pricing.Tenors|
      && forall i :: 0 <= i < |Pricing.Tenors| ==>
           && r.calcResult.value[i].tenor == Pricing.Tenors[i]
           && Pricing.QuotedAt(r.inputData["Credit Amount"], r.calcResult.value[i])
  {
    ExtractSucceedsIff(body);
    match Extract(body)
    case Err(failure) => ErrorReply(failure)
    case Ok(a) =>
      var predicted := classify(Features(a));
      var text := PredictionText(predicted);
      if predicted == 1 then
        match Pricing.Schedule(a.creditAmount)
        case Err(e) => ErrorReply(PricingFailed(e))
        case Ok(schedule) => Prediction(SuccessMessage, text, Echo(a), Some(schedule))
      else
        Prediction(SuccessMessage, text, Echo(a), None)
  }

  /** On a well-formed request the classifier is asked about the request's
      fields in `FieldNames` order. The reply approves exactly when it
      answers 1, and is an error instead only when it answers 1 for a
      credit amount beyond the float range. */
  lemma ApprovedExactlyOnLabelOne(body: Body, classify: seq<int> -> int, v: seq<int>)
    requires ReadAll(body, FieldNames) == Ok(v)
    ensures |v| == |FieldNames|
    ensures Predict(body, classify).Prediction? <==>
      classify(v) != 1 || Pricing.FloatConvertible(v[0])
    ensures Predict(body, classify).ErrorReply? ==>
      Predict(body, classify).failure == PricingFailed(Pricing.FloatOverflow)
    ensures Predict(body, classify).Prediction? ==>
      (Predict(body, classify).predictionText == Approved <==> classify(v) == 1)
    ensures Predict(body, classify).Prediction? ==>
      (Predict(body, classify).predictionText == Rejected <==> classify(v) != 1)
  {
    ExtractReadsFieldNamesInOrder(body);
    ExtractSucceedsIff(body);
  }

  /** `input_data` repeats each extracted field, 0 for a missing one,
      under its echo key, and holds nothing else. */
  lemma EchoesExtractedFields(body: Body, classify: seq<int> -> int, i: int)
    requires Predict(body, classify).Prediction?
    requires 0 <= i < |FieldNames|
    ensures body.Object?
    ensures EchoLabels[i] in Predict(body, classify).inputData
    ensures FieldNames[i] in body.fields ==>
      body.fields[FieldNames[i]] == Integral(Predict(body, classify).inputData[EchoLabels[i]])
    ensures FieldNames[i] !in body.fields ==> Predict(body, classify).inputData[EchoLabels[i]] == 0
    ensures forall k :: k in Predict(body, classify).inputData <==> k in EchoLabels
  {
    ExtractSucceedsIff(body);
    FeaturesFollowRequest(body, i);
  }

  /** The reply depends on the classifier only through its answer for the
      assembled vector; on a request whose extraction fails it does not
      depend on the classifier at all. */
  lemma ClassifierConsultedOnlyOnFeatures(body: Body, c1: seq<int> -> int, c2: seq<int> -> int)
    requires forall v :: ReadAll(body, FieldNames) == Ok(v) ==> c1(v) == c2(v)
    ensures Predict(body, c1) == Predict(body, c2)
  {
    ExtractReadsFieldNamesInOrder(body);
  }

  /** Two approved requests with the same credit amount are quoted the same
      schedule, whatever their other fields, the requested duration
      included. */
  lemma ScheduleDependsOnlyOnCreditAmount(
    b1: Body, c1: seq<int> -> int, b2: Body, c2: seq<int> -> int)
    requires Predict(b1, c1).Prediction? && Predict(b1, c1).calcResult.Some?
    requires Predict(b2, c2).Prediction? && Predict(b2, c2).calcResult.Some?
    requires Predict(b1, c1).inputData["Credit Amount"] == Predict(b2, c2).inputData["Credit Amount"]
    ensures Predict(b1, c1).calcResult == Predict(b2, c2).calcResult
  {
    ExtractSucceedsIff(b1);
    ExtractSucceedsIff(b2);
    var a1, a2 := Extract(b1).value, Extract(b2).value;
    assert Predict(b1, c1).inputData == Echo(a1);
    assert Predict(b2, c2).inputData == Echo(a2);
    assert a1.creditAmount == a2.creditAmount;
  }
}
