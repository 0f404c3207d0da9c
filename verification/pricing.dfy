/** The installment schedule of app.py: a tenor list, a margin table keyed
    by the decimal rendering of the tenor, the per-tenor installment
    formula, and the loop that builds one entry per tenor. Margins and
    installments are exact reals. */
module Pricing {
  import opened Base
  import Decimal

  /** The tenors (in months) a schedule is quoted for, in quoting order. */
  const Tenors: seq<int> := [6, 12, 24, 36]

  /** Margin rate per tenor; the keys are strings, as app.py declares them. */
  const Margins: map<string, real> :=
    map["6" := 0.07, "12" := 0.08, "24" := 0.09, "36" := 0.10]

  /** `m` divided by 2^`k`, rounded down. */
  function Halve(m: nat, k: nat): (r: nat)
    ensures r <= m
  {
    if k == 0 then m else Halve(m / 2, k - 1)
  }

  /** 2 to the power `k`. */
  function Pow2(k: nat): (r: nat)
    ensures r >= 1
  {
    if k == 0 then 1 else 2 * Pow2(k - 1)
  }

  /** The largest finite double is (2^53 - 1) * 2^971 = (2^54 - 2) * 2^970.
      An integer converts to a float exactly when it rounds to a finite
      double, that is when its magnitude is below (2^54 - 1) * 2^970: from
      that halfway point on, rounding reaches 2^1024 and Python raises an
      overflow error. */
  const OverflowMantissa: nat := 0x3F_FFFF_FFFF_FFFF
  const OverflowExponent: nat := 970

  /** Python can turn `n` into a float without raising. */
  predicate FloatConvertible(n: int)
  {
    Halve(if n < 0 then -n else n, OverflowExponent) < OverflowMantissa
  }

  /** `q` doubled `k` times, that is `q * 2^k`. */
  function Shifted(q: nat, k: nat): (r: nat)
    ensures r >= q
  {
    if k == 0 then q else 2 * Shifted(q, k - 1)
  }

  /** Doubling `k` times multiplies by `2^k`. */
  lemma {:induction false} ShiftedIsProduct(q: nat, k: nat)
    ensures Shifted(q, k) == q * Pow2(k)
  {
    if k > 0 {
      ShiftedIsProduct(q, k - 1);
      var x := Pow2(k - 1);
      assert q * (x + x) == q * x + q * x;
    }
  }

  /** Halving `k` times stays below `q` exactly when `m` is below
      `q * 2^k`. */
  lemma {:induction false} HalveBelowIff(m: nat, k: nat, q: nat)
    ensures Halve(m, k) < q <==> m < Shifted(q, k)
  {
    if k > 0 {
      HalveBelowIff(m / 2, k - 1, q);
    }
  }

  /** The float range as a bound on the magnitude: below
      (2^54 - 1) * 2^970 = 2^1024 - 2^970. */
  lemma FloatConvertibleIff(n: int)
    ensures FloatConvertible(n) <==>
      -(OverflowMantissa * Pow2(OverflowExponent)) < n < OverflowMantissa * Pow2(OverflowExponent)
  {
    var m: nat := if n < 0 then -n else n;
    HalveBelowIff(m, OverflowExponent, OverflowMantissa);
    ShiftedIsProduct(OverflowMantissa, OverflowExponent);
  }

  /** One quoted schedule line: `{tenor, margin, installment}`. */
  datatype Entry = Entry(tenor: int, margin: real, installment: real)

  /** Why pricing a tenor raised: no margin under the tenor's key, or a
      credit amount too large to become a float. */
  datatype CalcError = MissingMargin(tenor: int) | FloatOverflow

  /** The margin table holds a key for `str(tenor)` exactly when the
      tenor is in the tenor list. */
  lemma MarginKeyIffListed(tenor: int)
    ensures Decimal.IntToDecimal(tenor) in Margins <==> tenor in Tenors
  {
    assert Decimal.IntToDecimal(6) == "6";
    assert Decimal.IntToDecimal(12) == "12";
    assert Decimal.IntToDecimal(24) == "24";
    assert Decimal.IntToDecimal(36) == "36";
    Decimal.IntToDecimalInjective(tenor, 6);
    Decimal.IntToDecimalInjective(tenor, 12);
    Decimal.IntToDecimalInjective(tenor, 24);
    Decimal.IntToDecimalInjective(tenor, 36);
  }

  /** `margins[str(tenor)]`, defined exactly on the tenor list: every
      scheduled lookup succeeds, and no other integer has a rate. `None`
      where app.py raises a key error. */
  function MarginFor(tenor: int): (r: Option<real>)
    ensures r.Some? <==> tenor in Tenors
  {
    var key := Decimal.IntToDecimal(tenor);
    MarginKeyIffListed(tenor);
    if key in Margins then Some(Margins[key]) else None
  }

  /** The rate each listed tenor is quoted at. */
  lemma MarginRates()
    ensures MarginFor(6) == Some(7.0 / 100.0)
    ensures MarginFor(12) == Some(8.0 / 100.0)
    ensures MarginFor(24) == Some(9.0 / 100.0)
    ensures MarginFor(36) == Some(10.0 / 100.0)
  {
    assert Decimal.IntToDecimal(6) == "6";
    assert Decimal.IntToDecimal(12) == "12";
    assert Decimal.IntToDecimal(24) == "24";
    assert Decimal.IntToDecimal(36) == "36";
  }

  /** The installment formula of app.py: principal plus margin, spread
      evenly over the tenor. */
  function Installment(creditAmount: int, margin: real, tenor: int): (r: real)
    requires tenor != 0
    ensures r * tenor as real == creditAmount as real * (1.0 + margin)
  {
    (creditAmount as real + margin * creditAmount as real) / tenor as real
  }

  /** `calculate(credit_amount, tenor)`: the principal plus its margin,
      spread evenly over the tenor. The margin lookup comes first, so an
      unlisted tenor is a key error; then the credit amount is turned into
      a float, which raises beyond the float range. */
  function Calculate(creditAmount: int, tenor: int): (r: Result<real, CalcError>)
    ensures r.Ok? <==> tenor in Tenors && FloatConvertible(creditAmount)
    ensures tenor !in Tenors ==> r == Err(MissingMargin(tenor))
    ensures tenor in Tenors && !FloatConvertible(creditAmount) ==> r == Err(FloatOverflow)
    ensures r.Ok? ==>
      && MarginFor(tenor).Some?
      && r.value * tenor as real == creditAmount as real * (1.0 + MarginFor(tenor).value)
  {
    match MarginFor(tenor)
    case None => Err(MissingMargin(tenor))
    case Some(margin) =>
      if !FloatConvertible(creditAmount) then Err(FloatOverflow)
      else Ok(Installment(creditAmount, margin, tenor))
  }

  /** `e` is the line quoted for its tenor on a credit of `creditAmount`:
      it carries the tenor's rate, and the installment repaid over the
      tenor amounts to the principal plus that margin. */
  predicate QuotedAt(creditAmount: int, e: Entry)
  {
    && MarginFor(e.tenor) == Some(e.margin)
    && e.installment * e.tenor as real == creditAmount as real * (1.0 + e.margin)
  }

  /** One pass of the loop body in app.py: price `tenor` and record the
      line `{tenor, margin, installment}`. */
  function Line(creditAmount: int, tenor: int): (r: Result<Entry, CalcError>)
    ensures r.Ok? <==> tenor in Tenors && FloatConvertible(creditAmount)
    ensures r.Err? ==> r.error == (if tenor in Tenors then FloatOverflow else MissingMargin(tenor))
    ensures r.Ok? ==> r.value.tenor == tenor && QuotedAt(creditAmount, r.value)
  {
    var installment :- Calculate(creditAmount, tenor);
    Ok(Entry(tenor, MarginFor(tenor).value, installment))
  }

  /** Schedule lines for the tenors `ts`, in the order given; the first
      tenor that cannot be priced stops the loop with its error, as the
      loop in app.py raises there. */
  function ScheduleOver(creditAmount: int, ts: seq<int>): (r: Result<seq<Entry>, CalcError>)
    ensures r.Ok? <==>
      |ts| == 0 || (FloatConvertible(creditAmount) && forall i :: 0 <= i < |ts| ==> ts[i] in Tenors)
    ensures r.Err? && !FloatConvertible(creditAmount) ==>
      && |ts| > 0
      && r.error == (if ts[0] in Tenors then FloatOverflow else MissingMargin(ts[0]))
    ensures r.Ok? ==> |r.value| == |ts|
    ensures r.Ok? ==> forall i :: 0 <= i < |ts| ==> Line(creditAmount, ts[i]) == Ok(r.value[i])
  {
    if |ts| == 0 then Ok([])
    else
      var head :- Line(creditAmount, ts[0]);
      match ScheduleOver(creditAmount, ts[1..])
      case Err(e) =>
        var j :| 0 <= j < |ts[1..]| && ts[1..][j] !in Tenors;
        assert ts[j + 1] !in Tenors;
        Err(e)
      case Ok(rest) =>
        assert forall i :: 1 <= i < |ts| ==> ts[i] == ts[1..][i - 1];
        Ok([head] + rest)
  }

  /** With a credit amount in the float range, the only way pricing a list
      of tenors can fail is a tenor without a margin, and it fails on the
      first such tenor. */
  lemma {:induction false} ScheduleOverFailsOnlyOnMissingMargin(creditAmount: int, ts: seq<int>)
    requires FloatConvertible(creditAmount)
    ensures ScheduleOver(creditAmount, ts).Err? ==>
      exists k :: && 0 <= k < |ts|
                  && ScheduleOver(creditAmount, ts).error == MissingMargin(ts[k])
                  && ts[k] !in Tenors
                  && forall j :: 0 <= j < k ==> ts[j] in Tenors
  {
    if |ts| > 0 && ts[0] in Tenors {
      ScheduleOverFailsOnlyOnMissingMargin(creditAmount, ts[1..]);
      if ScheduleOver(creditAmount, ts).Err? {
        var k :| && 0 <= k < |ts[1..]|
                 && ScheduleOver(creditAmount, ts[1..]).error == MissingMargin(ts[1..][k])
                 && ts[1..][k] !in Tenors
                 && forall j :: 0 <= j < k ==> ts[1..][j] in Tenors;
        assert forall j :: 1 <= j < k + 1 ==> ts[j] == ts[1..][j - 1];
        assert ts[k + 1] !in Tenors;
      }
    }
  }

  /** The schedule quoted on approval: one line per listed tenor, in list
      order, each at that tenor's rate, determined by the credit amount
      alone; it fails only for a credit amount beyond the float range. */
  function Schedule(creditAmount: int): (r: Result<seq<Entry>, CalcError>)
    ensures r.Ok? <==> FloatConvertible(creditAmount)
    ensures r.Err? ==> r.error == FloatOverflow
    ensures r.Ok? ==> |r.value| == |Tenors|
    ensures r.Ok? ==> forall i :: 0 <= i < |r.value| ==> r.value[i].tenor == Tenors[i]
    ensures r.Ok? ==> forall i, j :: 0 <= i < j < |r.value| ==> r.value[i].tenor < r.value[j].tenor
    ensures r.Ok? ==> forall i :: 0 <= i < |r.value| ==> QuotedAt(creditAmount, r.value[i])
  {
    ScheduleOver(creditAmount, Tenors)
  }

  /** The worked example: 10,000,000 over 12 months at 8% is 900,000 a month. */
  lemma TwelveMonthExample()
    ensures Calculate(10000000, 12) == Ok(900000.0)
  {
    MarginRates();
    assert FloatConvertible(10000000);
  }

  /** The full schedule for a credit of 10,000,000. */
  lemma ScheduleExample()
    ensures Schedule(10000000) == Ok([
      Entry(6, 0.07, 10700000.0 / 6.0),
      Entry(12, 0.08, 900000.0),
      Entry(24, 0.09, 10900000.0 / 24.0),
      Entry(36, 0.10, 11000000.0 / 36.0)])
  {
    MarginRates();
    assert FloatConvertible(10000000);
    var s := Schedule(10000000).value;
    assert s[0] == Entry(6, 0.07, 10700000.0 / 6.0);
    assert s[1] == Entry(12, 0.08, 900000.0);
    assert s[2] == Entry(24, 0.09, 10900000.0 / 24.0);
    assert s[3] == Entry(36, 0.10, 11000000.0 / 36.0);
    assert s == [s[0], s[1], s[2], s[3]];
  }

  /** The approval schedule fails, with the overflow error, exactly for a
      credit amount whose magnitude reaches 2^1024 - 2^970. */
  lemma ScheduleFailsExactlyBeyondFloatRange(creditAmount: int)
    ensures Schedule(creditAmount) == Err(FloatOverflow) <==>
      || creditAmount <= -(OverflowMantissa * Pow2(OverflowExponent))
      || OverflowMantissa * Pow2(OverflowExponent) <= creditAmount
  {
    FloatConvertibleIff(creditAmount);
  }
}
