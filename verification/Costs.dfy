// The transaction-cost schedule.

module Costs {
  import opened Wrappers
  import opened Rounding

  datatype Error = NegativeTurnover

  /** Round to paise, half-up. */
  function RoundPaise(value: real): real {
    HalfUp(value * 100.0) as real / 100.0
  }

  /** A whole number of paise. */
  ghost predicate IsPaise(value: real) {
    (value * 100.0).Floor as real == value * 100.0
  }

  lemma RoundIsPaise(value: real)
    ensures IsPaise(RoundPaise(value))
  {
    assert RoundPaise(value) * 100.0 == HalfUp(value * 100.0) as real;
  }

  /** Rounding leaves whole paise alone. */
  lemma PaiseFixed(value: real, n: int)
    requires value * 100.0 == n as real
    ensures RoundPaise(value) == value
  {
    var r := HalfUp(n as real);
    assert -0.5 <= r as real - n as real <= 0.5;
    assert r == n;
  }

  datatype CostBreakdown = CostBreakdown(
    brokerage: real,
    securitiesTransactionTax: real,
    exchangeCharges: real,
    gst: real,
    stampDuty: real,
    sebiCharges: real)
  {
    function Sum(): real {
      brokerage + securitiesTransactionTax + exchangeCharges + gst + stampDuty + sebiCharges
    }

    function Total(): real {
      RoundPaise(Sum())
    }

    function Plus(other: CostBreakdown): CostBreakdown {
      CostBreakdown(
        brokerage + other.brokerage,
        securitiesTransactionTax + other.securitiesTransactionTax,
        exchangeCharges + other.exchangeCharges,
        gst + other.gst,
        stampDuty + other.stampDuty,
        sebiCharges + other.sebiCharges)
    }

    /** Every component is a whole number of paise. */
    ghost predicate InPaise() {
      && IsPaise(brokerage)
      && IsPaise(securitiesTransactionTax)
      && IsPaise(exchangeCharges)
      && IsPaise(gst)
      && IsPaise(stampDuty)
      && IsPaise(sebiCharges)
    }
  }

  const NO_COSTS := CostBreakdown(0.0, 0.0, 0.0, 0.0, 0.0, 0.0)

  datatype CostModel = CostModel(
    brokerageFlat: real,
    brokerageRate: real,
    sttRateSell: real,
    exchangeRate: real,
    gstRate: real,
    stampDutyRateBuy: real,
    sebiRate: real)
  {
    function Charge(turnover: real, isBuy: bool): (r: Result<CostBreakdown, Error>)
      ensures r.Failure? <==> turnover < 0.0
      ensures r.Success? ==> r.value.InPaise()
      ensures r.Success? && isBuy ==> r.value.securitiesTransactionTax == 0.0
      ensures r.Success? && !isBuy ==> r.value.stampDuty == 0.0
    {
      if turnover < 0.0 then Failure(NegativeTurnover) else
        var brokerage := if brokerageFlat <= turnover * brokerageRate
                         then brokerageFlat else turnover * brokerageRate;
        var stt := if isBuy then 0.0 else turnover * sttRateSell;
        var exchange := turnover * exchangeRate;
        var sebi := turnover * sebiRate;
        var stamp := if isBuy then turnover * stampDutyRateBuy else 0.0;
        var gst := (brokerage + exchange + sebi) * gstRate;
        RoundIsPaise(brokerage);
        RoundIsPaise(stt);
        RoundIsPaise(exchange);
        RoundIsPaise(gst);
        RoundIsPaise(stamp);
        RoundIsPaise(sebi);
        PaiseFixed(0.0, 0);
        Success(CostBreakdown(
          RoundPaise(brokerage), RoundPaise(stt), RoundPaise(exchange),
          RoundPaise(gst), RoundPaise(stamp), RoundPaise(sebi)))
    }
  }

  lemma PaiseAdd(a: real, b: real)
    requires IsPaise(a) && IsPaise(b)
    ensures IsPaise(a + b)
  {
    var m, n := (a * 100.0).Floor, (b * 100.0).Floor;
    assert (a + b) * 100.0 == (m + n) as real;
  }

  lemma SumInPaise(c: CostBreakdown)
    requires c.InPaise()
    ensures IsPaise(c.Sum())
  {
    var a := c.brokerage + c.securitiesTransactionTax;
    PaiseAdd(c.brokerage, c.securitiesTransactionTax);
    PaiseAdd(a, c.exchangeCharges);
    PaiseAdd(a + c.exchangeCharges, c.gst);
    PaiseAdd(a + c.exchangeCharges + c.gst, c.stampDuty);
    PaiseAdd(a + c.exchangeCharges + c.gst + c.stampDuty, c.sebiCharges);
  }

  lemma PlusInPaise(c: CostBreakdown, d: CostBreakdown)
    requires c.InPaise() && d.InPaise()
    ensures c.Plus(d).InPaise()
  {
    PaiseAdd(c.brokerage, d.brokerage);
    PaiseAdd(c.securitiesTransactionTax, d.securitiesTransactionTax);
    PaiseAdd(c.exchangeCharges, d.exchangeCharges);
    PaiseAdd(c.gst, d.gst);
    PaiseAdd(c.stampDuty, d.stampDuty);
    PaiseAdd(c.sebiCharges, d.sebiCharges);
  }

  /** For charges in whole paise, rounding the total loses nothing, fill by fill or summed. */
  lemma TotalIsExact(c: CostBreakdown)
    requires c.InPaise()
    ensures c.Total() == c.Sum()
  {
    SumInPaise(c);
    PaiseFixed(c.Sum(), (c.Sum() * 100.0).Floor);
  }

  lemma RoundIsNear(value: real)
    ensures -0.005 <= RoundPaise(value) - value <= 0.005
  {
  }

  /** The six amounts before rounding. */
  function Exact(model: CostModel, turnover: real, isBuy: bool): CostBreakdown {
    var proportional := turnover * model.brokerageRate;
    var brokerage := if model.brokerageFlat <= proportional then model.brokerageFlat else proportional;
    var exchange, sebi := turnover * model.exchangeRate, turnover * model.sebiRate;
    CostBreakdown(
      brokerage,
      if isBuy then 0.0 else turnover * model.sttRateSell,
      exchange,
      (brokerage + exchange + sebi) * model.gstRate,
      if isBuy then turnover * model.stampDutyRateBuy else 0.0,
      sebi)
  }

  lemma ChargeRoundsExact(model: CostModel, turnover: real, isBuy: bool)
    requires turnover >= 0.0
    ensures var e := Exact(model, turnover, isBuy);
            model.Charge(turnover, isBuy).value
              == CostBreakdown(RoundPaise(e.brokerage), RoundPaise(e.securitiesTransactionTax),
                               RoundPaise(e.exchangeCharges), RoundPaise(e.gst), RoundPaise(e.stampDuty),
                               RoundPaise(e.sebiCharges))
  {
    hide RoundPaise;
  }

  lemma ExactIs(model: CostModel, turnover: real, isBuy: bool)
    ensures var proportional := turnover * model.brokerageRate;
            var brokerage := if model.brokerageFlat < proportional then model.brokerageFlat else proportional;
            var services := brokerage + turnover * model.exchangeRate + turnover * model.sebiRate;
            var duty := if isBuy then turnover * model.stampDutyRateBuy else turnover * model.sttRateSell;
            Exact(model, turnover, isBuy).Sum() == services + services * model.gstRate + duty
  {
  }

  lemma ChargeNearSum(model: CostModel, turnover: real, isBuy: bool)
    requires turnover >= 0.0
    ensures -0.03 <= model.Charge(turnover, isBuy).value.Total() - Exact(model, turnover, isBuy).Sum() <= 0.03
  {
    hide RoundPaise, CostModel.Charge, Exact;
    var e := Exact(model, turnover, isBuy);
    ChargeRoundsExact(model, turnover, isBuy);
    RoundIsNear(e.brokerage);
    RoundIsNear(e.securitiesTransactionTax);
    RoundIsNear(e.exchangeCharges);
    RoundIsNear(e.gst);
    RoundIsNear(e.stampDuty);
    RoundIsNear(e.sebiCharges);
    TotalIsExact(model.Charge(turnover, isBuy).value);
  }

  /** What a fill is charged in all is, to half a paisa for each of six charges, the lower of the flat and the
      proportional brokerage, exchange and SEBI fees, tax on those services, and the side's own duty. */
  lemma ChargeIsNearExact(model: CostModel, turnover: real, isBuy: bool)
    requires turnover >= 0.0
    ensures var proportional := turnover * model.brokerageRate;
            var brokerage := if model.brokerageFlat < proportional then model.brokerageFlat else proportional;
            var services := brokerage + turnover * model.exchangeRate + turnover * model.sebiRate;
            var duty := if isBuy then turnover * model.stampDutyRateBuy else turnover * model.sttRateSell;
            -0.03 <= model.Charge(turnover, isBuy).value.Total() - (services + services * model.gstRate + duty) <= 0.03
  {
    hide RoundPaise, CostModel.Charge, Exact, CostBreakdown.Total, CostBreakdown.Sum;
    ChargeNearSum(model, turnover, isBuy);
    ExactIs(model, turnover, isBuy);
  }

  /** A breakdown in whole paise totals to its six charges, and two add up charge by charge. */
  lemma TotalIsSixCharges(c: CostBreakdown, d: CostBreakdown)
    requires c.InPaise() && d.InPaise()
    ensures c.Total() == c.brokerage + c.securitiesTransactionTax + c.exchangeCharges + c.gst + c.stampDuty + c.sebiCharges
    ensures var sum := c.Plus(d);
            && sum.Total() == c.Total() + d.Total()
            && sum.brokerage == c.brokerage + d.brokerage
            && sum.securitiesTransactionTax == c.securitiesTransactionTax + d.securitiesTransactionTax
            && sum.exchangeCharges == c.exchangeCharges + d.exchangeCharges && sum.gst == c.gst + d.gst
            && sum.stampDuty == c.stampDuty + d.stampDuty && sum.sebiCharges == c.sebiCharges + d.sebiCharges
  {
    hide RoundPaise, IsPaise;
    PlusInPaise(c, d);
    TotalIsExact(c);
    TotalIsExact(d);
    TotalIsExact(c.Plus(d));
  }
}
