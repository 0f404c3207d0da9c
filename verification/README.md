# Loan decision endpoint — Dafny model

This project models the `/api/v1/predict` endpoint of a small Flask loan
service. The endpoint reads ten applicant fields from a JSON request and
assembles them into a fixed-order feature vector. It asks a trained
classifier for a label and replies `APPROVED` for label 1 and `REJECTED`
otherwise. In `app.py`, an approval also gets an installment schedule: one
line per tenor of 6, 12, 24 and 36 months, each priced with that tenor's
margin. `tempCodeRunnerFile.py` is an earlier revision of the same handler
that has no schedule.

Modules:

- `Base`: `Option` and `Result`.
- `Decimal`: Python's `str` on integers, which builds the margin table's
  keys, and its inverse.
- `Pricing`: the tenor list, the margin table, `calculate` and the
  schedule loop, with margins and installments as exact reals. Converting
  the credit amount to a float raises for a magnitude of 2^1024 - 2^970
  or more, and the model includes that error.
- `Pipeline`: the steps both revisions share. It reads each field as
  `int(feature_input.get(name, 0))`, so a missing field is 0 and a value
  `int()` rejects is an error. It also assembles the vector, maps the
  label to text and defines the reply type.
- `App` and `EarlierRevision`: the two handlers.

The classifier is a function parameter `seq<int> -> int`. It gives the label
predicted for the single row the handler submits. A JSON value is modelled
only as what `int()` makes of it: `Integral(n)` or `NotIntegral`. A request whose body is not a JSON object
makes the first `.get` raise. The model shows this as `NotObject`, which
gets the error reply.

What the handler does not do:

- It does no range or type validation. Fields are coerced with `int()`, and
  a missing field defaults to 0.
- It treats every label other than 1 as a rejection. No label is invalid.
- It keys the margin table by tenor alone. There is no purpose-keyed
  table, no `save` flag, no persistence and no feature scaler.

## Model

| member | source | states |
|---|---|---|
| Decimal.IntToDecimalRoundTrip | app.py:29 | the decimal key `str(t)` built for a tenor reads back as `t` |
| Decimal.IntToDecimalInjective | app.py:29 | two integers get the same margin-table key exactly when they are equal |
| Pricing.MarginKeyIffListed | app.py:14-26 | the table has a key `str(t)` exactly when `t` is in the tenor list |
| Pricing.MarginFor | app.py:29 | `margins[str(tenor)]` succeeds exactly for tenors in the tenor list, so no scheduled lookup fails and no other integer has a rate |
| Pricing.MarginRates | app.py:14-19 | tenors 6, 12, 24 and 36 carry margins 7%, 8%, 9% and 10% |
| Pricing.FloatConvertibleIff | app.py:29 | the credit amount converts to a float exactly when its magnitude is below (2^54 - 1) * 2^970, that is 2^1024 - 2^970 |
| Pricing.ScheduleFailsExactlyBeyondFloatRange | app.py:29 | the approval schedule fails, with the overflow error, exactly when the credit amount's magnitude reaches (2^54 - 1) * 2^970 |
| Pricing.Installment | app.py:29 | installment × tenor = credit × (1 + margin) |
| Pricing.Calculate | app.py:28-30 | `calculate` succeeds exactly for a listed tenor and a credit amount in the float range; an unlisted tenor is a missing-margin error and a too-large amount an overflow error; on success installment × tenor = credit × (1 + margin of that tenor) |
| Pricing.TwelveMonthExample | app.py:28-30 | 10,000,000 over 12 months at 8% gives 900,000 |
| Pricing.Line | app.py:60-66 | one pass of the loop body: it succeeds exactly for a listed tenor and an amount in float range, fails with the same error as `calculate` otherwise, and on success records the tenor with the rate its installment was priced at |
| Pricing.ScheduleOver | app.py:58-66 | the loop yields one line per tenor in the given order, line i being the loop body's line for tenor i; it fails exactly when the amount is out of float range or some tenor has no margin, and an out-of-range amount fails at the first tenor |
| Pricing.ScheduleOverFailsOnlyOnMissingMargin | app.py:58-66 | with an amount in float range, the loop fails only on the first tenor without a margin |
| Pricing.Schedule | app.py:58-66 | the approval schedule fails exactly for an amount out of float range; otherwise it has one line per listed tenor, in list order and strictly ascending, each priced by the installment formula at its own rate |
| Pricing.ScheduleExample | app.py:21-30 | the full schedule quoted for a credit of 10,000,000 |
| Pipeline.ReadField | app.py:38 | `int(feature_input.get(name, 0))`: 0 for a missing key, the value for one `int()` accepts, an error naming the field for one it rejects, a body-not-object error for a non-object body |
| Pipeline.Extract | app.py:38-47 | the ten reads succeed exactly when every field read succeeds, and then position i of the assembled vector is what reading `FieldNames[i]` gave |
| Pipeline.ReadAll | app.py:38-47 | reading the named fields in order either gives one value per name in that order or fails with the first failing field's error |
| Pipeline.Features | app.py:50-52 | the vector has exactly ten entries, and position i holds the field named `FieldNames[i]` (credit_amount, present_employment, property, purpose, saving_accounts, age, dependants, credit_history, duration, existing_acc) |
| Pipeline.ExtractReadsFieldNamesInOrder | app.py:38-52 | the ten straight-line reads plus vector assembly equal reading `FieldNames` in order, on success and on failure |
| Pipeline.ExtractFailsLikeReadAll | app.py:38-47 | when a read raises, the ten reads stop with the same error as reading `FieldNames` in order |
| Pipeline.ExtractSucceedsIff | app.py:38-47 | extraction succeeds exactly when the body is an object and none of the ten fields is rejected by `int()` |
| Pipeline.FeaturesFollowRequest | app.py:38-52 | vector position i is the request's value for `FieldNames[i]`, and 0 when that field is absent |
| Pipeline.ExtractReportsFirstFailure | app.py:38-47 | a failed extraction names the first field in read order that `int()` rejects, or reports a body that is not an object |
| Pipeline.Echo | app.py:71-82 | `input_data` has exactly the ten echo keys, each holding the field at the same vector position, so "Credit Amount" holds the credit amount |
| Pipeline.PredictionText | app.py:56 | the text is "APPROVED" exactly when the label is 1, and "REJECTED" otherwise |
| App.Predict | app.py:34-106 | an error reply exactly when some field fails conversion or an approved credit amount is out of float range; otherwise "Prediction Success", with `calc_result` present exactly on approval, one line per listed tenor priced on the echoed credit amount |
| App.ApprovedExactlyOnLabelOne | app.py:55-66 | on a well-formed request the classifier gets the fields in `FieldNames` order; the reply approves exactly when it answers 1, and is the overflow error only when it answers 1 for an out-of-range credit amount |
| App.EchoesExtractedFields | app.py:68-103 | in both branches `input_data` repeats every request field unchanged, with 0 for a missing one, and holds nothing else |
| App.ClassifierConsultedOnlyOnFeatures | app.py:50-58 | the reply depends on the classifier only through its answer for the assembled vector, and not at all when extraction fails |
| App.ScheduleDependsOnlyOnCreditAmount | app.py:58-66 | approved requests with equal credit amounts get the same schedule, whatever the duration and other fields |
| EarlierRevision.Predict | tempCodeRunnerFile.py:13-55 | an error reply exactly when some field fails conversion; otherwise the reply never has a schedule, and its text is APPROVED or REJECTED |
| EarlierRevision.RevisionsAgree | tempCodeRunnerFile.py:29-31 | the two revisions give the same reply, apart from app.py's schedule, exactly when app.py does not give its overflow error; so they build identical vectors in identical order, and on that error this revision approves |
| EarlierRevision.ApprovedExactlyOnLabelOne | tempCodeRunnerFile.py:34-35 | the earlier revision approves exactly when the classifier answers 1 for the fields in `FieldNames` order |
| EarlierRevision.EchoesExtractedFields | tempCodeRunnerFile.py:40-51 | `input_data` repeats every request field unchanged, with 0 for a missing one |
| EarlierRevision.ConversionFailureSkipsClassifier | tempCodeRunnerFile.py:17-55 | a field `int()` rejects gives the error reply naming the first such field in read order, and the reply is the same for every classifier |

## Left out

- Flask setup, routing, CORS, `jsonify`, the HTTP 400 status, and the `/` and `/about` routes: transport only.
- Loading the pickled classifier and its internals: the classifier is a function parameter.
- Exceptions raised inside the classifier: the parameter is total, so a classifier failure is not modelled.
- The numpy array: the one-row matrix is a `seq<int>`, and `prediction[0]` is the parameter's result.
- The text of the error message (`str(e)`): the error reply carries a structured reason instead. That reason is the failing field, or a body that is not an object.
- Python's full `int()` rules (strings, floats, booleans): a JSON value is modelled only as converted to an integer or rejected.
- Floating-point margins and installments: exact reals are used, and the formula is stated instead of IEEE results. The float behaviour kept is the overflow error when the credit amount is converted. An amount in range whose installment exceeds the largest double gives `inf` in app.py, and the model gives the exact value.
- Key order in the JSON reply: `input_data` is a map.
