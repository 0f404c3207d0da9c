/** The request-handling steps both revisions of the predict handler share:
    reading the ten fields from the JSON body, assembling the classifier's
    feature vector, and turning the classifier's label into text. The two
    handlers read the same fields in the same order and build the same
    vector, so these steps are defined once. */
module Pipeline {
  import opened Base
  import Pricing

  /** A JSON value as Python's `int()` sees it: one it converts (a finite
      number, truncated toward zero; a numeric string; a boolean) with the
      integer it yields, or one it rejects (null, NaN, an infinity, a list,
      an object, any other string). */
  datatype JsonValue = Integral(n: int) | NotIntegral

  /** The parsed request body: a JSON object, or any other JSON document
      (on which `.get` raises). */
  datatype Body = Object(fields: map<string, JsonValue>) | NotObject

  /** Why a request got the error reply. */
  datatype Failure =
    | BodyNotObject
    | NotAnInteger(field: string)
    | PricingFailed(reason: Pricing.CalcError)

  /** The ten integers read from a request. */
  datatype Applicant = Applicant(
    creditAmount: int,
    presentEmployment: int,
    property: int,
    purpose: int,
    savingAccounts: int,
    age: int,
    dependants: int,
    creditHistory: int,
    duration: int,
    existingAcc: int)

  /** The request field names, in the order the classifier expects them. */
  const FieldNames: seq<string> := [
    "credit_amount", "present_employment", "property", "purpose",
    "saving_accounts", "age", "dependants", "credit_history",
    "duration", "existing_acc"]

  /** The keys under which the reply echoes each field, position for
      position with `FieldNames`. */
  const EchoLabels: seq<string> := [
    "Credit Amount", "Present Employment", "Property", "Purpose",
    "Saving Accounts", "Age", "Dependants", "Credit History",
    "Duration", "Existing Account"]

  const SuccessMessage: string := "Prediction Success"
  const Approved: string := "APPROVED"
  const Rejected: string := "REJECTED"

  /** The handler's reply. `calcResult` is the approval schedule, present
      only where the handler adds one. */
  datatype Response =
    | Prediction(
        message: string,
        predictionText: string,
        inputData: map<string, int>,
        calcResult: Option<seq<Pricing.Entry>>)
    | ErrorReply(failure: Failure)

  /** `feature_input.get(name, 0)`: the value under `name`, or the
      integer 0 when the request has no such key. */
  function Get(fields: map<string, JsonValue>, name: string): JsonValue
  {
    if name in fields then fields[name] else Integral(0)
  }

  /** The request carries `name` with a value `int()` rejects. */
  predicate Rejects(fields: map<string, JsonValue>, name: string)
  {
    name in fields && fields[name].NotIntegral?
  }

  /** `int(feature_input.get(name, 0))`: 0 for a missing key, the converted
      value for one `int()` accepts, and an error naming the field for one
      it rejects; on a body that is not an object, `.get` itself fails. */
  function ReadField(body: Body, name: string): (r: Result<int, Failure>)
    ensures body.NotObject? ==> r == Err(BodyNotObject)
    ensures body.Object? && name !in body.fields ==> r == Ok(0)
    ensures body.Object? && name in body.fields && body.fields[name].Integral? ==>
      r == Ok(body.fields[name].n)
    ensures body.Object? && Rejects(body.fields, name) ==> r == Err(NotAnInteger(name))
  {
    match body
    case NotObject => Err(BodyNotObject)
    case Object(fields) =>
      match Get(fields, name)
      case Integral(n) => Ok(n)
      case NotIntegral => Err(NotAnInteger(name))
  }

  /** The field named `name`, or `None` for a name that is not a field. */
  function FieldOf(a: Applicant, name: string): Option<int>
  {
    if name == "credit_amount" then Some(a.creditAmount)
    else if name == "present_employment" then Some(a.presentEmployment)
    else if name == "property" then Some(a.property)
    else if name == "purpose" then Some(a.purpose)
    else if name == "saving_accounts" then Some(a.savingAccounts)
    else if name == "age" then Some(a.age)
    else if name == "dependants" then Some(a.dependants)
    else if name == "credit_history" then Some(a.creditHistory)
    else if name == "duration" then Some(a.duration)
    else if name == "existing_acc" then Some(a.existingAcc)
    else None
  }

  /** The ten field reads, one after the other in the handler's order; the
      first one that fails ends the request. */
  function Extract(body: Body): (r: Result<Applicant, Failure>)
    ensures r.Ok? <==> forall i :: 0 <= i < |FieldNames| ==> ReadField(body, FieldNames[i]).Ok?
    ensures r.Ok? ==> forall i :: 0 <= i < |FieldNames| ==>
      ReadField(body, FieldNames[i]) == Ok(Features(r.value)[i])
  {
    assert FieldNames[0] == "credit_amount" && FieldNames[1] == "present_employment";
    assert FieldNames[2] == "property" && FieldNames[3] == "purpose";
    assert FieldNames[4] == "saving_accounts" && FieldNames[5] == "age";
    assert FieldNames[6] == "dependants" && FieldNames[7] == "credit_history";
    assert FieldNames[8] == "duration" && FieldNames[9] == "existing_acc";
    var creditAmount :- ReadField(body, "credit_amount");
    var presentEmployment :- ReadField(body, "present_employment");
    var property :- ReadField(body, "property");
    var purpose :- ReadField(body, "purpose");
    var savingAccounts :- ReadField(body, "saving_accounts");
    var age :- ReadField(body, "age");
    var dependants :- ReadField(body, "dependants");
    var creditHistory :- ReadField(body, "credit_history");
    var duration :- ReadField(body, "duration");
    var existingAcc :- ReadField(body, "existing_acc");
    Ok(Applicant(creditAmount, presentEmployment, property, purpose, savingAccounts,
                 age, dependants, creditHistory, duration, existingAcc))
  }

  /** Every field of the body converts (a missing one counts as 0). */
  predicate AllConvertible(body: Body)
  {
    && body.Object?
    && forall i :: 0 <= i < |FieldNames| ==> !Rejects(body.fields, FieldNames[i])
  }

  /** The feature vector the classifier receives, one entry per field in
      `FieldNames` order. */
  function Features(a: Applicant): (v: seq<int>)
    ensures |v| == |FieldNames|
    ensures forall i :: 0 <= i < |v| ==> FieldOf(a, FieldNames[i]) == Some(v[i])
  {
    [a.creditAmount, a.presentEmployment, a.property, a.purpose, a.savingAccounts,
     a.age, a.dependants, a.creditHistory, a.duration, a.existingAcc]
  }

  /** The reply's `input_data`: each extracted field under its echo key. */
  function Echo(a: Applicant): (m: map<string, int>)
    ensures forall k :: k in m <==> k in EchoLabels
    ensures forall i :: 0 <= i < |EchoLabels| ==> m[EchoLabels[i]] == Features(a)[i]
    ensures m["Credit Amount"] == a.creditAmount
  {
    map[
      "Credit Amount" := a.creditAmount,
      "Present Employment" := a.presentEmployment,
      "Property" := a.property,
      "Purpose" := a.purpose,
      "Saving Accounts" := a.savingAccounts,
      "Age" := a.age,
      "Dependants" := a.dependants,
      "Credit History" := a.creditHistory,
      "Duration" := a.duration,
      "Existing Account" := a.existingAcc]
  }

  /** `prediction_text` for a classifier label. */
  function PredictionText(predicted: int): (t: string)
    ensures t == Approved <==> predicted == 1
    ensures t == Approved || t == Rejected
  {
    if predicted == 1 then Approved else Rejected
  }

  /** Reference reader: the fields `names`, read in order into a vector;
      the first field that fails ends the read with its failure. */
  function ReadAll(body: Body, names: seq<string>): (r: Result<seq<int>, Failure>)
    ensures r.Ok? <==> forall i :: 0 <= i < |names| ==> ReadField(body, names[i]).Ok?
    ensures r.Ok? ==> |r.value| == |names|
    ensures r.Ok? ==> forall i :: 0 <= i < |names| ==> ReadField(body, names[i]) == Ok(r.value[i])
    ensures r.Err? ==> exists k :: 0 <= k < |names| && ReadField(body, names[k]) == Err(r.error)
                                && forall j :: 0 <= j < k ==> ReadField(body, names[j]).Ok?
  {
    if |names| == 0 then Ok([])
    else
      var first :- ReadField(body, names[0]);
      var rest :- ReadAll(body, names[1..]);
      assert forall i :: 1 <= i < |names| ==> names[i] == names[1..][i - 1];
      Ok([first] + rest)
  }

  /** A read of `names` fails with the failure of the first field that
      fails. */
  lemma ReadAllStopsAtFirstFailure(body: Body, names: seq<string>, k: int)
    requires 0 <= k < |names|
    requires ReadField(body, names[k]).Err?
    requires forall j :: 0 <= j < k ==> ReadField(body, names[j]).Ok?
    ensures ReadAll(body, names) == Err(ReadField(body, names[k]).error)
  {
    var r := ReadAll(body, names);
    var k' :| && 0 <= k' < |names| && ReadField(body, names[k']) == Err(r.error)
              && forall j :: 0 <= j < k' ==> ReadField(body, names[j]).Ok?;
    assert k' == k;
  }

  /** The handler's ten reads followed by vector assembly amount to reading
      the fields in `FieldNames` order: position `i` of the vector is the
      field named `FieldNames[i]`, and a failed read is the first failing
      field in that order. */
  lemma ExtractReadsFieldNamesInOrder(body: Body)
    ensures Extract(body).Ok? ==> ReadAll(body, FieldNames) == Ok(Features(Extract(body).value))
    ensures Extract(body).Err? ==> ReadAll(body, FieldNames) == Err(Extract(body).error)
  {
    var names := FieldNames;
    if Extract(body).Ok? {
      var v := ReadAll(body, names).value;
      assert v == Features(Extract(body).value);
    } else {
      ExtractFailsLikeReadAll(body);
    }
  }

  /** The failing half of `ExtractReadsFieldNamesInOrder`: the ten reads
      stop at the same field as reading `FieldNames` in order. */
  lemma ExtractFailsLikeReadAll(body: Body)
    requires Extract(body).Err?
    ensures ReadAll(body, FieldNames) == Err(Extract(body).error)
  {
    var names := FieldNames;
    assert names[0] == "credit_amount" && names[1] == "present_employment";
    assert names[2] == "property" && names[3] == "purpose";
    assert names[4] == "saving_accounts" && names[5] == "age";
    assert names[6] == "dependants" && names[7] == "credit_history";
    assert names[8] == "duration" && names[9] == "existing_acc";
    if ReadField(body, names[0]).Err? {
      ReadAllStopsAtFirstFailure(body, names, 0);
    } else if ReadField(body, names[1]).Err? {
      ReadAllStopsAtFirstFailure(body, names, 1);
    } else if ReadField(body, names[2]).Err? {
      ReadAllStopsAtFirstFailure(body, names, 2);
    } else if ReadField(body, names[3]).Err? {
      ReadAllStopsAtFirstFailure(body, names, 3);
    } else if ReadField(body, names[4]).Err? {
      ReadAllStopsAtFirstFailure(body, names, 4);
    } else if ReadField(body, names[5]).Err? {
      ReadAllStopsAtFirstFailure(body, names, 5);
    } else if ReadField(body, names[6]).Err? {
      ReadAllStopsAtFirstFailure(body, names, 6);
    } else if ReadField(body, names[7]).Err? {
      ReadAllStopsAtFirstFailure(body, names, 7);
    } else if ReadField(body, names[8]).Err? {
      ReadAllStopsAtFirstFailure(body, names, 8);
    } else {
      ReadAllStopsAtFirstFailure(body, names, 9);
    }
  }

  /** Extraction succeeds exactly when every field converts. */
  lemma ExtractSucceedsIff(body: Body)
    ensures Extract(body).Ok? <==> AllConvertible(body)
  {
    ExtractReadsFieldNamesInOrder(body);
    if body.NotObject? {
      assert ReadField(body, FieldNames[0]).Err?;
    }
  }

  /** Position `i` of the feature vector holds the request's value for
      `FieldNames[i]`, and 0 where the request leaves that field out. */
  lemma FeaturesFollowRequest(body: Body, i: int)
    requires Extract(body).Ok?
    requires 0 <= i < |FieldNames|
    ensures body.Object?
    ensures FieldNames[i] in body.fields ==>
      body.fields[FieldNames[i]] == Integral(Features(Extract(body).value)[i])
    ensures FieldNames[i] !in body.fields ==> Features(Extract(body).value)[i] == 0
  {
    ExtractSucceedsIff(body);
    ExtractReadsFieldNamesInOrder(body);
  }

  /** A failed extraction reports either a body that is not an object or
      the first field, in `FieldNames` order, that `int()` rejects. */
  lemma ExtractReportsFirstFailure(body: Body)
    requires Extract(body).Err?
    ensures body.NotObject? ==> Extract(body).error == BodyNotObject
    ensures body.Object? ==>
      exists k :: && 0 <= k < |FieldNames|
                  && Extract(body).error == NotAnInteger(FieldNames[k])
                  && Rejects(body.fields, FieldNames[k])
                  && forall j :: 0 <= j < k ==> !Rejects(body.fields, FieldNames[j])
  {
    ExtractReadsFieldNamesInOrder(body);
  }
}
