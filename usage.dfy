/** One week of one subscriber: the data used (the records' quantities added up) and the two
    costs of the period, or three empty strings when the usage request fails. */
module Usage {
  import opened Strings
  import opened JsValue
  import opened Coercion
  import opened Remote

  /** `r?.quantity ?? r?.usedDataByte ?? r?.useddatabyte ?? 0` */
  function Quantity(r: Value): Value {
    Coalesce(Coalesce(Coalesce(Member(r, "quantity"), Member(r, "usedDataByte")),
                      Member(r, "useddatabyte")),
             Num(0))
  }

  /** `(typeof v === "number") ? v : Number(v || 0)`, or `None` when `Number` throws. */
  function Amount(v: Value): (r: Option<Value>)
    ensures r.None? <==> TextThrows(v)
    ensures r.Some? ==> r.value.Num? || r.value.NaN?
  {
    if v.Num? || v.NaN? then Some(v) else ToNumber(OrElse(v, Num(0)))
  }

  /** `a + b` on numbers: NaN absorbs. */
  function Plus(a: Value, b: Value): (r: Value)
    requires (a.Num? || a.NaN?) && (b.Num? || b.NaN?)
  {
    if a.Num? && b.Num? then Num(a.n + b.n) else NaN
  }

  /** What `used` holds after the records have been added one by one, starting from 0, or
      `None` when `Number` throws on a record's quantity and the loop is left for the `catch`. */
  function UsedTotal(records: seq<Value>): (r: Option<Value>)
    ensures r.Some? ==> r.value.Num? || r.value.NaN?
  {
    if records == [] then Some(Num(0))
    else
      var used := UsedTotal(records[..|records| - 1]);
      var amount := Amount(Quantity(records[|records| - 1]));
      if used.None? || amount.None? then None else Some(Plus(used.value, amount.value))
  }

  /** The `for (const r of records)` loop; `None` when it throws. */
  method SumUsage(records: seq<Value>) returns (used: Option<Value>)
    ensures used == UsedTotal(records)
  {
    var total := Num(0);
    var i := 0;
    while i < |records|
      invariant 0 <= i <= |records|
      invariant UsedTotal(records[..i]) == Some(total)
    {
      var r := records[i];
      var v := Quantity(r);
      var amount := Amount(v);
      if amount.None? {
        assert TextThrows(Quantity(records[i]));
        UsedTotalMeaning(records);
        return None;
      }
      total := Plus(total, amount.value);
      assert records[..i + 1][..i] == records[..i];
      i := i + 1;
    }
    assert records[..i] == records;
    used := Some(total);
  }

  /** `Number` throws on the quantity of some record. */
  predicate AnyThrows(records: seq<Value>) {
    exists i :: 0 <= i < |records| && TextThrows(Quantity(records[i]))
  }

  /** Every record's amount is a number (none throws and none is NaN). */
  predicate AllNumeric(records: seq<Value>) {
    forall i :: 0 <= i < |records| ==> Amount(Quantity(records[i])).Some? && Amount(Quantity(records[i])).value.Num?
  }

  /** The plain sum of the records' amounts. */
  function Sum(records: seq<Value>): int
    requires AllNumeric(records)
  {
    if records == [] then 0 else Amount(Quantity(records[0])).value.n + Sum(records[1..])
  }

  lemma {:induction false} SumSnoc(records: seq<Value>, x: Value)
    requires AllNumeric(records + [x])
    ensures AllNumeric(records) && Amount(Quantity(x)).Some? && Amount(Quantity(x)).value.Num?
    ensures Sum(records + [x]) == Sum(records) + Amount(Quantity(x)).value.n
    decreases |records|
  {
    assert forall i :: 0 <= i < |records| ==> records[i] == (records + [x])[i];
    assert x == (records + [x])[|records|];
    if records != [] {
      assert (records + [x])[1..] == records[1..] + [x];
      SumSnoc(records[1..], x);
    }
  }

  /** The loop throws when `Number` throws on some record's quantity; otherwise `used` is the sum
      of the amounts when each is a number, and NaN as soon as one is not. */
  lemma {:induction false} UsedTotalMeaning(records: seq<Value>)
    ensures UsedTotal(records) ==
      if AnyThrows(records) then None
      else if AllNumeric(records) then Some(Num(Sum(records))) else Some(NaN)
    decreases |records|
  {
    if records != [] {
      var init, x := records[..|records| - 1], records[|records| - 1];
      assert records == init + [x];
      UsedTotalMeaning(init);
      MeaningStep(init, x);
    }
  }

  /** One more record keeps `used` the sum while every amount is a number, NaN after, and a
      throw once one has thrown. */
  lemma MeaningStep(init: seq<Value>, x: Value)
    requires UsedTotal(init) ==
      if AnyThrows(init) then None
      else if AllNumeric(init) then Some(Num(Sum(init))) else Some(NaN)
    ensures UsedTotal(init + [x]) ==
      if AnyThrows(init + [x]) then None
      else if AllNumeric(init + [x]) then Some(Num(Sum(init + [x]))) else Some(NaN)
  {
    UsedTotalSnoc(init, x);
    AnyThrowsSnoc(init, x);
    AllNumericSnoc(init, x);
    if AllNumeric(init + [x]) {
      SumSnoc(init, x);
    }
  }

  lemma UsedTotalSnoc(init: seq<Value>, x: Value)
    ensures var used, amount := UsedTotal(init), Amount(Quantity(x));
      UsedTotal(init + [x]) == if used.None? || amount.None? then None else Some(Plus(used.value, amount.value))
  {
    assert (init + [x])[..|init|] == init;
  }

  lemma AnyThrowsSnoc(init: seq<Value>, x: Value)
    ensures AnyThrows(init + [x]) <==> AnyThrows(init) || TextThrows(Quantity(x))
  {
    assert forall i :: 0 <= i < |init| ==> (init + [x])[i] == init[i];
    assert (init + [x])[|init|] == x;
  }

  lemma AllNumericSnoc(init: seq<Value>, x: Value)
    ensures AllNumeric(init + [x]) <==>
      AllNumeric(init) && Amount(Quantity(x)).Some? && Amount(Quantity(x)).value.Num?
  {
    assert forall i :: 0 <= i < |init| ==> (init + [x])[i] == init[i];
    assert (init + [x])[|init|] == x;
  }

  /** A quantity written as a numeral string is counted as its number. */
  lemma TextQuantity(n: int)
    ensures Amount(Quantity(Obj([Field("quantity", Str(IntText(n)))]))) == Some(Num(n))
  {
    var r := Obj([Field("quantity", Str(IntText(n)))]);
    assert Member(r, "quantity") == Str(IntText(n));
    NumberOfText(n);
  }

  /** The three values a week contributes to a row. */
  datatype Figures = Figures(used: Value, resellerCost: Value, subscriberCost: Value)

  /** What the weekly `catch` writes. */
  const Unavailable := Figures(Str(""), Str(""), Str(""))

  /** `u?.usages || u?.usage || []` */
  function RecordsOf(u: Value): Value {
    OrElse(OrElse(Member(u, "usages"), Member(u, "usage")), Arr([]))
  }

  /** `u?.total || {}` */
  function TotalOf(u: Value): Value {
    OrElse(Member(u, "total"), Obj([]))
  }

  /** The report part of a usage response: `usageJson?.subscriberUsageOverPeriod || {}`. */
  function PeriodOf(json: Value): Value {
    OrElse(Member(json, "subscriberUsageOverPeriod"), Obj([]))
  }

  /** The weekly `try`/`catch` for one week, given the outcome of its usage request. */
  function WeekFigures(outcome: Outcome): Figures {
    match outcome
    case Fail => Unavailable
    case Ok(json) =>
      var u := PeriodOf(json);
      var total := TotalOf(u);
      var records := RecordsOf(u);
      var used := if records.Arr? then UsedTotal(records.items) else Some(Num(0));
      if used.None? then Unavailable
      else Figures(used.value,
                   Coalesce(Member(total, "resellerCost"), Num(0)),
                   Coalesce(Member(total, "subscriberCost"), Num(0)))
  }

  /** The weekly `try`/`catch` for one week, once its request has been answered. */
  method MeasureWeek(outcome: Outcome) returns (f: Figures)
    ensures f == WeekFigures(outcome)
  {
    match outcome {
      case Fail =>
        f := Figures(Str(""), Str(""), Str(""));
      case Ok(json) =>
        var u := PeriodOf(json);
        var total := TotalOf(u);
        var records := RecordsOf(u);
        var used := Some(Num(0));
        if records.Arr? {
          used := SumUsage(records.items);
        }
        if used.None? {
          f := Figures(Str(""), Str(""), Str(""));
        } else {
          f := Figures(used.value, Coalesce(Member(total, "resellerCost"), Num(0)),
                       Coalesce(Member(total, "subscriberCost"), Num(0)));
        }
    }
  }

  /** The answer's records are an array on one of whose quantities `Number` throws. */
  predicate QuantityThrows(json: Value) {
    var records := RecordsOf(PeriodOf(json));
    records.Arr? && AnyThrows(records.items)
  }

  /** A week shows "" exactly when its request failed or `Number` threw on one of its records'
      quantities, and then in all three figures; otherwise the data used is a number (or NaN)
      and neither cost is null or undefined. */
  lemma FailureShowsEmpty(outcome: Outcome)
    ensures WeekFigures(outcome).used == Str("") <==> outcome.Fail? || QuantityThrows(outcome.json)
    ensures outcome.Fail? || QuantityThrows(outcome.json) ==> WeekFigures(outcome) == Unavailable
    ensures outcome.Ok? && !QuantityThrows(outcome.json) ==>
              (WeekFigures(outcome).used.Num? || WeekFigures(outcome).used.NaN?) &&
              !Nullish(WeekFigures(outcome).resellerCost) && !Nullish(WeekFigures(outcome).subscriberCost)
  {
    if outcome.Ok? && RecordsOf(PeriodOf(outcome.json)).Arr? {
      UsedTotalMeaning(RecordsOf(PeriodOf(outcome.json)).items);
    }
  }

  /** A quantity `{"toString": 1}` makes `Number` throw, so a week whose request succeeded still
      shows "" in all three figures. */
  lemma ThrowingQuantity()
    ensures var quantity := Obj([Field("toString", Num(1))]);
      var json := Obj([Field("subscriberUsageOverPeriod",
                             Obj([Field("usages", Arr([Obj([Field("quantity", quantity)])]))]))]);
      QuantityThrows(json) && WeekFigures(Ok(json)) == Unavailable
  {
    var quantity := Obj([Field("toString", Num(1))]);
    var record := Obj([Field("quantity", quantity)]);
    var json := Obj([Field("subscriberUsageOverPeriod", Obj([Field("usages", Arr([record]))]))]);
    assert Quantity(record) == quantity;
    assert TextThrows(Quantity([record][0]));
    FailureShowsEmpty(Ok(json));
  }

  /** A response whose records field is not an array (or is missing) counts 0 bytes. */
  lemma NonArrayRecordsCountZero(json: Value)
    requires !RecordsOf(PeriodOf(json)).Arr?
    ensures WeekFigures(Ok(json)).used == Num(0)
  {
  }

  /** `usages` wins over `usage` whenever it is truthy, even as an empty array. */
  lemma UsagesShadowUsage(json: Value)
    requires var u := PeriodOf(json); u.Obj? && Member(u, "usages").Arr?
    ensures var used := UsedTotal(Member(PeriodOf(json), "usages").items);
      WeekFigures(Ok(json)).used == if used.None? then Str("") else used.value
  {
  }

  /** Without a truthy `usages`, an array under `usage` is what is counted. */
  lemma UsageFallback(json: Value)
    requires var u := PeriodOf(json); !Truthy(Member(u, "usages")) && Member(u, "usage").Arr?
    ensures var used := UsedTotal(Member(PeriodOf(json), "usage").items);
      WeekFigures(Ok(json)).used == if used.None? then Str("") else used.value
  {
  }

  /** When no record throws, each cost is `total?.[key] ?? 0`. */
  lemma WeekCosts(json: Value)
    requires !QuantityThrows(json)
    ensures WeekFigures(Ok(json)).resellerCost == Coalesce(Member(TotalOf(PeriodOf(json)), "resellerCost"), Num(0))
    ensures WeekFigures(Ok(json)).subscriberCost == Coalesce(Member(TotalOf(PeriodOf(json)), "subscriberCost"), Num(0))
  {
    var records := RecordsOf(PeriodOf(json));
    if records.Arr? {
      UsedTotalMeaning(records.items);
    }
  }

  /** A period without a truthy `total` reports 0 for both costs. */
  lemma MissingTotalCostsZero(json: Value)
    requires !QuantityThrows(json)
    requires !Truthy(Member(PeriodOf(json), "total"))
    ensures WeekFigures(Ok(json)).resellerCost == Num(0)
    ensures WeekFigures(Ok(json)).subscriberCost == Num(0)
  {
    WeekCosts(json);
  }

  /** Each cost is the one the period's `total` object holds, and 0 when `total` lacks it or
      holds `null` or `undefined` under it; a `total` that is not an object (a number, a string,
      an array) holds neither cost, so both are 0. */
  lemma TotalCosts(json: Value, reseller: Value, subscriber: Value)
    requires !QuantityThrows(json)
    ensures var total := Member(PeriodOf(json), "total");
      !total.Obj? ==> WeekFigures(Ok(json)).resellerCost == Num(0) && WeekFigures(Ok(json)).subscriberCost == Num(0)
    ensures var total := Member(PeriodOf(json), "total");
      total.Obj? && Reads(total.fields, "resellerCost", reseller) ==>
        WeekFigures(Ok(json)).resellerCost == if Nullish(reseller) then Num(0) else reseller
    ensures var total := Member(PeriodOf(json), "total");
      total.Obj? && "resellerCost" !in Keys(total.fields) ==> WeekFigures(Ok(json)).resellerCost == Num(0)
    ensures var total := Member(PeriodOf(json), "total");
      total.Obj? && Reads(total.fields, "subscriberCost", subscriber) ==>
        WeekFigures(Ok(json)).subscriberCost == if Nullish(subscriber) then Num(0) else subscriber
    ensures var total := Member(PeriodOf(json), "total");
      total.Obj? && "subscriberCost" !in Keys(total.fields) ==> WeekFigures(Ok(json)).subscriberCost == Num(0)
  {
    WeekCosts(json);
    var total := Member(PeriodOf(json), "total");
    if total.Obj? {
      CostOf(total.fields, "resellerCost", reseller);
      CostOf(total.fields, "subscriberCost", subscriber);
    }
  }

  /** `total?.[key] ?? 0` on an object `total`: its value under `key` unless that is `null` or
      `undefined`, and 0 when the key is missing. */
  lemma CostOf(total: seq<Field>, key: string, v: Value)
    ensures Reads(total, key, v) ==> Coalesce(Member(Obj(total), key), Num(0)) == if Nullish(v) then Num(0) else v
    ensures key !in Keys(total) ==> Coalesce(Member(Obj(total), key), Num(0)) == Num(0)
  {
    LookupSome(total, key);
  }

  /** Each record counts its `quantity`, else its `usedDataByte`, else its `useddatabyte`: the
      first that is neither `null` nor `undefined`, and 0 when none is set. */
  lemma QuantityMeaning(r: Value)
    ensures var q, u, l := Member(r, "quantity"), Member(r, "usedDataByte"), Member(r, "useddatabyte");
      Quantity(r) == (if !Nullish(q) then q else if !Nullish(u) then u else if !Nullish(l) then l else Num(0))
    ensures !Nullish(Quantity(r))
    ensures !r.Obj? ==> Quantity(r) == Num(0)
  {
  }

  /** An answer without a truthy `subscriberUsageOverPeriod` counts 0 bytes and 0 for both costs. */
  lemma MissingPeriod(json: Value)
    requires !Truthy(Member(json, "subscriberUsageOverPeriod"))
    ensures WeekFigures(Ok(json)) == Figures(Num(0), Num(0), Num(0))
  {
  }
}
