// Fill simulation: quote selection, slippage, liquidity, limits and charges.

module Fills {
  import opened Wrappers
  import opened Rounding
  import opened Costs

  datatype Side = Buy | Sell {
    function Sign(): int {
      if Buy? then 1 else -1
    }
  }

  datatype OrderType = Market | Limit(limitPrice: real)

  /** A strategy's decision; a LIMIT intent carries its price, a MARKET one cannot. */
  datatype TradeIntent = TradeIntent(
    intentId: string,
    instrumentId: int,
    side: Side,
    quantity: int,
    orderType: OrderType,
    decisionTime: int)
  {
    // TradeIntent refuses any other quantity at construction.
    predicate Valid() {
      quantity > 0
    }
  }

  datatype SlippageModel = Mid | Touch | FractionOfSpread | SizeImpact

  datatype PriceSource = ObservedQuote | AssumedSpreadAroundLtp

  datatype RejectionReason =
    | NoPriceAvailable
    | LimitNotMarketable
    | NoLiquidity
    | StaleQuote
    | ModelledRejection

  datatype QuoteSnapshot = QuoteSnapshot(
    bid: Option<real>,
    ask: Option<real>,
    volume: Option<nat>,
    source: PriceSource,
    stale: bool)

  datatype OptionLeg = OptionLeg(
    instrumentId: int,
    bid: Option<real>,
    ask: Option<real>,
    ltp: Option<real>,
    volume: Option<nat>,
    quoteStale: bool)

  /** The legs of every expiry of one underlying, in state order. */
  type MarketState = seq<OptionLeg>

  datatype Fill = Fill(
    intentId: string,
    instrumentId: int,
    side: Side,
    quantity: int,
    price: real,
    referencePrice: real,
    filledAt: int,
    source: PriceSource,
    costs: CostBreakdown,
    requestedQuantity: int)
  {
    function SlippagePerUnit(): real {
      (price - referencePrice) * side.Sign() as real
    }
  }

  datatype FillOutcome =
    | Filled(fill: Fill)
    | Rejected(intentId: string, rejection: RejectionReason)

  function RoundToTick(price: real, tick: real): real {
    if tick <= 0.0 then price else HalfUp(price / tick) as real * tick
  }

  datatype FillModel = FillModel(
    latency: int,
    slippageModel: SlippageModel,
    slippageParameter: real,
    assumedSpreadFraction: real,
    partialFillsEnabled: bool,
    maxParticipationRate: real,
    rejectionRate: real,
    rejectOnStaleQuote: bool,
    costModel: CostModel,
    tickSize: real)
  {
    function QuoteFor(leg: OptionLeg): QuoteSnapshot {
      if leg.bid.Some? && leg.ask.Some? && leg.ask.value >= leg.bid.value then
        QuoteSnapshot(leg.bid, leg.ask, leg.volume, ObservedQuote, leg.quoteStale)
      else if leg.ltp.None? then
        QuoteSnapshot(None, None, leg.volume, AssumedSpreadAroundLtp, leg.quoteStale)
      else
        var half := leg.ltp.value * assumedSpreadFraction / 2.0;
        QuoteSnapshot(Some(leg.ltp.value - half), Some(leg.ltp.value + half),
                      leg.volume, AssumedSpreadAroundLtp, leg.quoteStale)
    }

    /** The price before it is put on the tick grid. */
    function RawPrice(bid: real, ask: real, volume: Option<nat>, side: Side, quantity: int): real {
      var mid, spread, sign := (bid + ask) / 2.0, ask - bid, side.Sign() as real;
      match slippageModel
      case Mid => mid
      case Touch => if side.Buy? then ask else bid
      case FractionOfSpread => mid + spread * slippageParameter * sign
      case SizeImpact =>
        var impact := if volume.Some? && volume.value != 0
                      then spread * slippageParameter * (quantity as real / volume.value as real)
                      else 0.0;
        mid + (spread / 2.0 + impact) * sign
    }

    /** `(reference, fill)`, or nothing when a side of the quote is missing. */
    function ReferenceAndFillPrice(quote: QuoteSnapshot, side: Side, quantity: int): Option<(real, real)> {
      if quote.bid.None? || quote.ask.None? then None else
        var bid, ask := quote.bid.value, quote.ask.value;
        Some(((bid + ask) / 2.0,
              RoundToTick(RawPrice(bid, ask, quote.volume, side, quantity), tickSize)))
    }

    function FillableQuantity(requested: int, quote: QuoteSnapshot): int {
      if !partialFillsEnabled || quote.volume.None? || quote.volume.value == 0 then requested else
        var cap := Truncate(quote.volume.value as real * maxParticipationRate);
        var usable := if cap > 0 then cap else 0;
        if requested <= usable then requested else usable
    }
  }

  function FindLeg(state: MarketState, instrumentId: int): Option<OptionLeg> {
    if state == [] then None
    else if state[0].instrumentId == instrumentId then Some(state[0])
    else FindLeg(state[1..], instrumentId)
  }

  /** Within its limit, for the side it is on. */
  predicate Marketable(intent: TradeIntent, price: real) {
    match intent.orderType
    case Market => true
    case Limit(limit) => if intent.side.Buy? then price <= limit else price >= limit
  }

  function Turnover(price: real, quantity: int): real {
    price * quantity as real
  }

  /** Simulate one intent against one state. `draw` is the unit draw of an intent id. */
  function SimulateFill(intent: TradeIntent, state: MarketState, model: FillModel, draw: string -> real)
    : (r: Result<FillOutcome, Error>)
  {
    var leg := FindLeg(state, intent.instrumentId);
    if leg.None? then Success(Rejected(intent.intentId, NoPriceAvailable)) else
      var quote := model.QuoteFor(leg.value);
      if quote.bid.None? || quote.ask.None? then
        Success(Rejected(intent.intentId, NoPriceAvailable))
      else if quote.stale && model.rejectOnStaleQuote then
        Success(Rejected(intent.intentId, StaleQuote))
      else if model.rejectionRate > 0.0 && draw(intent.intentId) < model.rejectionRate then
        Success(Rejected(intent.intentId, ModelledRejection))
      else
        var quantity := model.FillableQuantity(intent.quantity, quote);
        if quantity <= 0 then Success(Rejected(intent.intentId, NoLiquidity)) else
          var priced := model.ReferenceAndFillPrice(quote, intent.side, quantity).value;
          if !Marketable(intent, priced.1) then
            Success(Rejected(intent.intentId, LimitNotMarketable))
          else
            var price := if intent.orderType.Limit? then intent.orderType.limitPrice else priced.1;
            var costs := model.costModel.Charge(Turnover(price, quantity), intent.side.Buy?);
            if costs.Failure? then Failure(costs.error) else
              Success(Filled(Fill(
                intent.intentId, intent.instrumentId, intent.side, quantity, price, priced.0,
                intent.decisionTime + model.latency, quote.source, costs.value, intent.quantity)))
  }

  // ------------------------------------------------------------ tick rounding

  /** The price `a` steps up the grid. */
  function Steps(a: real, tick: real): real {
    a * tick
  }

  function OnGrid(k: int, tick: real): real {
    Steps(k as real, tick)
  }

  lemma ScaleLe(a: real, b: real, t: real)
    ensures a <= b && t >= 0.0 ==> a * t <= b * t
  {
  }

  lemma StepsLe(a: real, b: real, tick: real)
    requires tick > 0.0
    ensures a <= b ==> Steps(a, tick) <= Steps(b, tick)
    ensures a < b ==> Steps(a, tick) < Steps(b, tick)
  {
    if a < b {
      assert (b - a) * tick > 0.0;
    }
  }

  lemma StepsOf(tick: real)
    ensures Steps(0.0, tick) == 0.0 && Steps(0.5, tick) == tick / 2.0 && Steps(-0.5, tick) == -tick / 2.0
  {
  }

  lemma StepsPlus(x: real, d: real, tick: real)
    ensures Steps(x + d, tick) == Steps(x, tick) + Steps(d, tick)
  {
  }

  lemma DivideBack(a: real, t: real)
    ensures t != 0.0 ==> Steps(a / t, t) == a
  {
  }

  /** A price `x` steps up that rounds to `r` is within half a step of it. */
  lemma NearStep(x: real, r: int, tick: real)
    requires tick > 0.0 && -0.5 <= r as real - x <= 0.5
    requires r as real - x == 0.5 ==> x > 0.0
    requires r as real - x == -0.5 ==> x < 0.0
    ensures -tick / 2.0 <= OnGrid(r, tick) - Steps(x, tick) <= tick / 2.0
    ensures OnGrid(r, tick) - Steps(x, tick) == tick / 2.0 ==> Steps(x, tick) > 0.0
    ensures OnGrid(r, tick) - Steps(x, tick) == -tick / 2.0 ==> Steps(x, tick) < 0.0
  {
    hide Steps;
    var d := r as real - x;
    StepsPlus(x, d, tick);
    assert x + d == r as real;
    StepsOf(tick);
    StepsLe(-0.5, d, tick);
    StepsLe(d, 0.5, tick);
    StepsLe(0.0, x, tick);
    StepsLe(x, 0.0, tick);
  }

  lemma RoundToTickIs(price: real, tick: real)
    ensures tick > 0.0 ==> RoundToTick(price, tick) == OnGrid(HalfUp(price / tick), tick)
  {
  }

  /** A rounded price is on the grid and no grid price is closer; ties go away from zero. */
  lemma RoundToTickNearest(price: real, tick: real)
    requires tick > 0.0
    ensures -tick / 2.0 <= RoundToTick(price, tick) - price <= tick / 2.0
    ensures exists k: int :: RoundToTick(price, tick) == OnGrid(k, tick)
    ensures RoundToTick(price, tick) - price == tick / 2.0 ==> price > 0.0
    ensures RoundToTick(price, tick) - price == -tick / 2.0 ==> price < 0.0
  {
    hide HalfUp, RoundToTick, OnGrid, Steps;
    RoundToTickIs(price, tick);
    DivideBack(price, tick);
    NearStep(price / tick, HalfUp(price / tick), tick);
  }

  lemma DivideLe(a: real, b: real, t: real)
    ensures a <= b && t > 0.0 ==> a / t <= b / t
  {
  }

  lemma RoundToTickMonotone(p: real, q: real, tick: real)
    requires p <= q
    ensures RoundToTick(p, tick) <= RoundToTick(q, tick)
  {
    if tick > 0.0 {
      DivideLe(p, q, tick);
      HalfUpMonotone(p / tick, q / tick);
      ScaleLe(HalfUp(p / tick) as real, HalfUp(q / tick) as real, tick);
    }
  }

  // ----------------------------------------------------------------- slippage

  /** No worse for the trader on this side: a buyer pays no more, a seller receives no less. */
  predicate NoWorse(side: Side, better: real, worse: real) {
    if side.Buy? then better <= worse else worse <= better
  }

  lemma RoundKeepsNoWorse(side: Side, better: real, worse: real, tick: real)
    requires NoWorse(side, better, worse)
    ensures NoWorse(side, RoundToTick(better, tick), RoundToTick(worse, tick))
  {
    if side.Buy? {
      RoundToTickMonotone(better, worse, tick);
    } else {
      RoundToTickMonotone(worse, better, tick);
    }
  }

  /** What the slippage model adds to the mid, against the trader. */
  ghost function Adverse(model: FillModel, spread: real, volume: Option<nat>, quantity: int): real {
    match model.slippageModel
    case Mid => 0.0
    case Touch => spread / 2.0
    case FractionOfSpread => spread * model.slippageParameter
    case SizeImpact =>
      if volume.Some? && volume.value != 0
      then spread / 2.0 + spread * model.slippageParameter * (quantity as real / volume.value as real)
      else spread / 2.0
  }

  lemma RawIsMidPlusAdverse(model: FillModel, bid: real, ask: real, volume: Option<nat>, side: Side, quantity: int)
    ensures model.RawPrice(bid, ask, volume, side, quantity)
              == (bid + ask) / 2.0 + (if side.Buy? then Adverse(model, ask - bid, volume, quantity)
                                      else -Adverse(model, ask - bid, volume, quantity))
  {
  }

  /** A smaller adverse move gives a price no worse, after rounding too. */
  lemma LessAdverse(better: FillModel, worse: FillModel, quote: QuoteSnapshot, side: Side, q: int, r: int)
    requires quote.bid.Some? && quote.ask.Some? && better.tickSize == worse.tickSize
    requires var spread := quote.ask.value - quote.bid.value;
             Adverse(better, spread, quote.volume, q) <= Adverse(worse, spread, quote.volume, r)
    ensures NoWorse(side, FillPrice(better, quote, side, q), FillPrice(worse, quote, side, r))
  {
    var bid, ask, volume := quote.bid.value, quote.ask.value, quote.volume;
    RawIsMidPlusAdverse(better, bid, ask, volume, side, q);
    RawIsMidPlusAdverse(worse, bid, ask, volume, side, r);
    RoundKeepsNoWorse(side, better.RawPrice(bid, ask, volume, side, q),
                      worse.RawPrice(bid, ask, volume, side, r), better.tickSize);
  }

  lemma ProductNonNegative(a: real, b: real, c: real)
    requires a >= 0.0 && b >= 0.0 && c >= 0.0
    ensures a * b * c >= 0.0
  {
    assert a * b >= 0.0;
  }

  /** Before rounding, slippage is never in the trader's favour. */
  lemma RawNoBetterThanMid(model: FillModel, bid: real, ask: real, volume: Option<nat>, side: Side, quantity: nat)
    requires bid <= ask && model.slippageParameter >= 0.0
    ensures NoWorse(side, (bid + ask) / 2.0, model.RawPrice(bid, ask, volume, side, quantity))
  {
    var spread := ask - bid;
    ProductNonNegative(spread, model.slippageParameter, 1.0);
    if volume.Some? && volume.value != 0 {
      var participation := quantity as real / volume.value as real;
      assert participation >= 0.0;
      ProductNonNegative(spread, model.slippageParameter, participation);
    }
  }

  /** A market fill is never better than the mid by more than half a tick. */
  lemma MarketFillNeverBeatsMid(intent: TradeIntent, state: MarketState, model: FillModel, draw: string -> real)
    requires intent.Valid() && intent.orderType.Market?
    requires model.tickSize > 0.0 && model.slippageParameter >= 0.0
    requires model.assumedSpreadFraction >= 0.0
    requires forall leg | leg in state && leg.ltp.Some? :: leg.ltp.value >= 0.0
    ensures var r := SimulateFill(intent, state, model, draw);
            r.Success? && r.value.Filled? ==>
              r.value.fill.SlippagePerUnit() >= -model.tickSize / 2.0
  {
    var r := SimulateFill(intent, state, model, draw);
    if r.Success? && r.value.Filled? {
      FindLegIsFirst(state, intent.instrumentId);
      var leg := FindLeg(state, intent.instrumentId).value;
      QuoteOrdered(model, leg);
      var quote, fill := model.QuoteFor(leg), r.value.fill;
      RawNoBetterThanMid(model, quote.bid.value, quote.ask.value, quote.volume, intent.side, fill.quantity);
      var raw := model.RawPrice(quote.bid.value, quote.ask.value, quote.volume, intent.side, fill.quantity);
      RoundToTickNearest(raw, model.tickSize);
    }
  }

  lemma QuoteOrdered(model: FillModel, leg: OptionLeg)
    requires model.assumedSpreadFraction >= 0.0
    requires leg.ltp.Some? ==> leg.ltp.value >= 0.0
    ensures var q := model.QuoteFor(leg);
            q.bid.Some? && q.ask.Some? ==> q.bid.value <= q.ask.value
  {
    if leg.ltp.Some? {
      ProductNonNegative(leg.ltp.value, model.assumedSpreadFraction, 1.0);
    }
  }

  /** A quote is the observed one exactly when there is one and it is not crossed, and says so; otherwise the declared
      spread is laid evenly around the last trade, if there was one. */
  lemma QuoteSaysWhereItIsFrom(model: FillModel, leg: OptionLeg)
    ensures var q := model.QuoteFor(leg);
            var observed := leg.bid.Some? && leg.ask.Some? && leg.bid.value <= leg.ask.value;
            && (q.source.ObservedQuote? <==> observed)
            && (observed ==> q.bid == leg.bid && q.ask == leg.ask)
            && (q.bid.None? <==> q.ask.None?)
            && (q.bid.None? <==> !observed && leg.ltp.None?)
            && (!observed && leg.ltp.Some? ==>
                  && (q.bid.value + q.ask.value) / 2.0 == leg.ltp.value
                  && q.ask.value - q.bid.value == leg.ltp.value * model.assumedSpreadFraction)
            && q.volume == leg.volume && q.stale == leg.quoteStale
  {
  }

  function WithSlippage(model: FillModel, s: SlippageModel): FillModel {
    model.(slippageModel := s)
  }

  function FillPrice(model: FillModel, quote: QuoteSnapshot, side: Side, quantity: int): real
    requires quote.bid.Some? && quote.ask.Some?
  {
    model.ReferenceAndFillPrice(quote, side, quantity).value.1
  }

  /** What each slippage model asks before rounding: the mid; the far side of the quote; the mid moved towards the far
      side by a part of the spread; the far side moved beyond itself by a part of the spread that grows with the share
      of the volume taken. */
  lemma RawByModel(model: FillModel, bid: real, ask: real, volume: Option<nat>, side: Side, quantity: int)
    ensures var p, raw := model.slippageParameter, model.RawPrice(bid, ask, volume, side, quantity);
            var mid, far, spread := (bid + ask) / 2.0, if side.Buy? then ask else bid, ask - bid;
            var share := if volume.Some? && volume.value != 0 then quantity as real / volume.value as real else 0.0;
            && (model.slippageModel.Mid? ==> raw == mid)
            && (model.slippageModel.Touch? ==> raw == far)
            && (model.slippageModel.FractionOfSpread? ==>
                  raw - mid == if side.Buy? then spread * p else -(spread * p))
            && (model.slippageModel.SizeImpact? ==>
                  raw - far == if side.Buy? then spread * p * share else -(spread * p * share))
  {
    RawIsMidPlusAdverse(model, bid, ask, volume, side, quantity);
    hide FillModel.RawPrice;
  }

  /** The fill price is that, on the tick grid if there is one. */
  lemma FillPriceIsRawOnGrid(model: FillModel, quote: QuoteSnapshot, side: Side, quantity: int)
    requires quote.bid.Some? && quote.ask.Some?
    ensures var raw := model.RawPrice(quote.bid.value, quote.ask.value, quote.volume, side, quantity);
            && FillPrice(model, quote, side, quantity) == RoundToTick(raw, model.tickSize)
            && (model.tickSize <= 0.0 ==> FillPrice(model, quote, side, quantity) == raw)
  {
    hide FillModel.RawPrice, HalfUp;
  }

  lemma ImpactBeyondTouch(model: FillModel, spread: real, volume: Option<nat>, quantity: nat)
    requires spread >= 0.0 && model.slippageParameter >= 0.0
    ensures Adverse(WithSlippage(model, Touch), spread, volume, quantity)
              <= Adverse(WithSlippage(model, SizeImpact), spread, volume, quantity)
  {
    if volume.Some? && volume.value != 0 {
      var participation := quantity as real / volume.value as real;
      assert participation >= 0.0;
      ProductNonNegative(spread, model.slippageParameter, participation);
    }
  }

  lemma FractionOfSpreadBounds(model: FillModel, spread: real, volume: Option<nat>, quantity: nat)
    requires spread >= 0.0 && model.slippageParameter >= 0.0
    ensures var fraction := Adverse(WithSlippage(model, FractionOfSpread), spread, volume, quantity);
            && 0.0 <= fraction
            && (model.slippageParameter <= 0.5 ==> fraction <= spread / 2.0)
            && (model.slippageParameter >= 0.5 ==> spread / 2.0 <= fraction)
  {
    HalfSpread(spread, model.slippageParameter);
  }

  lemma HalfSpread(spread: real, p: real)
    requires spread >= 0.0 && p >= 0.0
    ensures 0.0 <= spread * p
    ensures p <= 0.5 ==> spread * p <= spread / 2.0
    ensures p >= 0.5 ==> spread / 2.0 <= spread * p
  {
    assert spread * p - spread / 2.0 == spread * (p - 0.5);
    ProductNonNegative(spread, p, 1.0);
    if p >= 0.5 {
      ProductNonNegative(spread, p - 0.5, 1.0);
    }
    if p <= 0.5 {
      ProductNonNegative(spread, 0.5 - p, 1.0);
      assert spread * (0.5 - p) == -(spread * (p - 0.5));
    }
  }

  /** The slippage models are ordered MID, TOUCH, SIZE_IMPACT against the trader. */
  lemma SlippageModelsOrdered(model: FillModel, quote: QuoteSnapshot, side: Side, quantity: nat)
    requires quote.bid.Some? && quote.ask.Some? && quote.bid.value <= quote.ask.value
    requires model.slippageParameter >= 0.0
    ensures NoWorse(side, FillPrice(WithSlippage(model, Mid), quote, side, quantity),
                    FillPrice(WithSlippage(model, Touch), quote, side, quantity))
    ensures NoWorse(side, FillPrice(WithSlippage(model, Touch), quote, side, quantity),
                    FillPrice(WithSlippage(model, SizeImpact), quote, side, quantity))
  {
    var spread := quote.ask.value - quote.bid.value;
    ImpactBeyondTouch(model, spread, quote.volume, quantity);
    LessAdverse(WithSlippage(model, Mid), WithSlippage(model, Touch), quote, side, quantity, quantity);
    LessAdverse(WithSlippage(model, Touch), WithSlippage(model, SizeImpact), quote, side, quantity, quantity);
  }

  /** FRACTION_OF_SPREAD is no better than MID; it is within TOUCH up to one half, beyond it from there. */
  lemma FractionAgainstTouch(model: FillModel, quote: QuoteSnapshot, side: Side, quantity: nat)
    requires quote.bid.Some? && quote.ask.Some? && quote.bid.value <= quote.ask.value
    requires model.slippageParameter >= 0.0
    ensures var mid := FillPrice(WithSlippage(model, Mid), quote, side, quantity);
            var touch := FillPrice(WithSlippage(model, Touch), quote, side, quantity);
            var fraction := FillPrice(WithSlippage(model, FractionOfSpread), quote, side, quantity);
            && NoWorse(side, mid, fraction)
            && (model.slippageParameter <= 0.5 ==> NoWorse(side, fraction, touch))
            && (model.slippageParameter >= 0.5 ==> NoWorse(side, touch, fraction))
  {
    var fraction, touch := WithSlippage(model, FractionOfSpread), WithSlippage(model, Touch);
    FractionOfSpreadBounds(model, quote.ask.value - quote.bid.value, quote.volume, quantity);
    LessAdverse(WithSlippage(model, Mid), fraction, quote, side, quantity, quantity);
    if model.slippageParameter <= 0.5 {
      LessAdverse(fraction, touch, quote, side, quantity, quantity);
    }
    if model.slippageParameter >= 0.5 {
      LessAdverse(touch, fraction, quote, side, quantity, quantity);
    }
  }

  /** Under SIZE_IMPACT a larger order never fills at a better price. */
  lemma SizeImpactMonotone(model: FillModel, quote: QuoteSnapshot, side: Side, small: nat, large: nat)
    requires model.slippageModel.SizeImpact? && model.slippageParameter >= 0.0 && small <= large
    requires quote.bid.Some? && quote.ask.Some? && quote.bid.value <= quote.ask.value
    ensures NoWorse(side, FillPrice(model, quote, side, small), FillPrice(model, quote, side, large))
  {
    var spread, p, volume := quote.ask.value - quote.bid.value, model.slippageParameter, quote.volume;
    if volume.Some? && volume.value != 0 {
      var v := volume.value as real;
      DivideLe(small as real, large as real, v);
      ProductNonNegative(spread, p, 1.0);
      ScaleLe(small as real / v, large as real / v, spread * p);
    }
    LessAdverse(model, model, quote, side, small, large);
  }

  // ------------------------------------------------------------- the simulator

  /** The leg used is the first one for the instrument. */
  lemma {:induction false} FindLegIsFirst(state: MarketState, instrumentId: int)
    ensures FindLeg(state, instrumentId).None? <==> forall leg | leg in state :: leg.instrumentId != instrumentId
    ensures FindLeg(state, instrumentId).Some? ==>
              exists i | 0 <= i < |state| ::
                && FindLeg(state, instrumentId).value == state[i]
                && state[i].instrumentId == instrumentId
                && forall j | 0 <= j < i :: state[j].instrumentId != instrumentId
  {
    if state != [] && state[0].instrumentId != instrumentId {
      FindLegIsFirst(state[1..], instrumentId);
      var rest := FindLeg(state[1..], instrumentId);
      if rest.Some? {
        var i :| 0 <= i < |state[1..]| && rest.value == state[1..][i]
                 && state[1..][i].instrumentId == instrumentId
                 && forall j | 0 <= j < i :: state[1..][j].instrumentId != instrumentId;
        assert state[i + 1] == state[1..][i];
        forall j | 0 <= j < i + 1 ensures state[j].instrumentId != instrumentId {
          if j > 0 { assert state[j] == state[1..][j - 1]; }
        }
      }
    }
  }

  lemma ChargedOn(intent: TradeIntent, state: MarketState, model: FillModel, draw: string -> real)
    requires var r := SimulateFill(intent, state, model, draw); r.Success? && r.value.Filled?
    ensures var fill := SimulateFill(intent, state, model, draw).value.fill;
            model.costModel.Charge(Turnover(fill.price, fill.quantity), fill.side.Buy?) == Success(fill.costs)
  {
    hide CostModel.Charge, FillModel.ReferenceAndFillPrice, FillModel.QuoteFor, FillModel.FillableQuantity;
    hide FindLeg, Marketable, Turnover;
  }

  /** What every fill satisfies: a positive part of the request, attributed to the decision plus latency and to the
      quote it was priced from, referenced to that quote's mid, at the slippage price on the tick grid or at an exact
      limit that price does not pass, and charged in whole paise. */
  lemma FillIsFaithful(intent: TradeIntent, state: MarketState, model: FillModel, draw: string -> real)
    requires intent.Valid()
    ensures var r := SimulateFill(intent, state, model, draw);
            r.Success? && r.value.Filled? ==>
              var fill := r.value.fill;
              && fill.intentId == intent.intentId && fill.instrumentId == intent.instrumentId
              && fill.side == intent.side
              && 0 < fill.quantity <= intent.quantity == fill.requestedQuantity
              && (!model.partialFillsEnabled ==> fill.quantity == intent.quantity)
              && fill.filledAt == intent.decisionTime + model.latency
              && fill.price >= 0.0
              && fill.costs.InPaise()
              && model.costModel.Charge(Turnover(fill.price, fill.quantity), fill.side.Buy?) == Success(fill.costs)
              && FindLeg(state, intent.instrumentId).Some?
              && var quote := model.QuoteFor(FindLeg(state, intent.instrumentId).value);
                 && quote.bid.Some? && quote.ask.Some? && fill.source == quote.source
                 && fill.quantity == model.FillableQuantity(intent.quantity, quote)
                 && fill.referencePrice == (quote.bid.value + quote.ask.value) / 2.0
                 && var slipped := FillPrice(model, quote, intent.side, fill.quantity);
                    if intent.orderType.Market? then fill.price == slipped
                    else fill.price == intent.orderType.limitPrice && NoWorse(intent.side, slipped, fill.price)
  {
    hide CostModel.Charge, FillModel.RawPrice, FillModel.QuoteFor, FillModel.FillableQuantity, RoundToTick, FindLeg;
    hide Turnover;
    var r := SimulateFill(intent, state, model, draw);
    if r.Success? && r.value.Filled? {
      var fill := r.value.fill;
      ChargedOn(intent, state, model, draw);
      NegativeProduct(fill.price, fill.quantity);
      ParticipationCapped(model, intent.quantity, model.QuoteFor(FindLeg(state, intent.instrumentId).value));
    }
  }

  /** Without partial fills, or without observed volume, all of the request; else as much of it as the declared share
      of the volume allows, in whole units and no less. */
  lemma ParticipationCapped(model: FillModel, requested: int, quote: QuoteSnapshot)
    ensures var filled := model.FillableQuantity(requested, quote);
            if model.partialFillsEnabled && quote.volume.Some? && quote.volume.value != 0 then
              var share := quote.volume.value as real * model.maxParticipationRate;
              && filled <= requested && (requested >= 0 ==> filled >= 0)
              && (filled > 0 ==> filled as real <= share)
              && (filled < requested ==> (filled + 1) as real > share)
            else filled == requested
  {
  }

  /** The simulator promises an outcome, never an exception. It raises exactly when an intent that
      passes every rejection is priced below zero, because the cost schedule refuses negative turnover. */
  lemma RaisesExactlyBelowZero(intent: TradeIntent, state: MarketState, model: FillModel, draw: string -> real)
    requires intent.Valid()
    ensures SimulateFill(intent, state, model, draw).Failure? <==>
              && FindLeg(state, intent.instrumentId).Some?
              && var quote := model.QuoteFor(FindLeg(state, intent.instrumentId).value);
                 var quantity := model.FillableQuantity(intent.quantity, quote);
                 var priced := model.ReferenceAndFillPrice(quote, intent.side, quantity);
                 && priced.Some?
                 && !(quote.stale && model.rejectOnStaleQuote)
                 && !(model.rejectionRate > 0.0 && draw(intent.intentId) < model.rejectionRate)
                 && quantity > 0
                 && Marketable(intent, priced.value.1)
                 && (if intent.orderType.Limit? then intent.orderType.limitPrice else priced.value.1) < 0.0
  {
    var leg := FindLeg(state, intent.instrumentId);
    if leg.Some? {
      var quote := model.QuoteFor(leg.value);
      var quantity := model.FillableQuantity(intent.quantity, quote);
      var priced := model.ReferenceAndFillPrice(quote, intent.side, quantity);
      if priced.Some? && quantity > 0 {
        var price := if intent.orderType.Limit? then intent.orderType.limitPrice else priced.value.1;
        NegativeProduct(price, quantity);
      }
    }
  }

  /** Which outcome an order gets, exactly: the first of these that applies, and otherwise it is filled. There is no leg,
      or neither an uncrossed quote nor a last trade; the quote is refused as stale; the draw rejects; nothing is
      fillable; the slippage price is beyond the limit; the price to be charged is below zero, which raises. */
  lemma OutcomeExactly(intent: TradeIntent, state: MarketState, model: FillModel, draw: string -> real)
    ensures var r, leg := SimulateFill(intent, state, model, draw), FindLeg(state, intent.instrumentId);
            var unpriced := leg.None?
              || (leg.value.ltp.None?
                    && !(leg.value.bid.Some? && leg.value.ask.Some? && leg.value.bid.value <= leg.value.ask.value));
            var rejected := (reason: RejectionReason) => Success(Rejected(intent.intentId, reason));
            && (r == rejected(NoPriceAvailable) <==> unpriced)
            && (!unpriced ==>
                  var quote := model.QuoteFor(leg.value);
                  var quantity := model.FillableQuantity(intent.quantity, quote);
                  && quote.bid.Some? && quote.ask.Some?
                  && var slipped := FillPrice(model, quote, intent.side, quantity);
                     var stale := leg.value.quoteStale && model.rejectOnStaleQuote;
                     var drawn := model.rejectionRate > 0.0 && draw(intent.intentId) < model.rejectionRate;
                     var beyond := intent.orderType.Limit?
                       && if intent.side.Buy? then slipped > intent.orderType.limitPrice
                          else slipped < intent.orderType.limitPrice;
                     var below := (if intent.orderType.Limit? then intent.orderType.limitPrice else slipped) < 0.0;
                     && (r == rejected(StaleQuote) <==> stale)
                     && (r == rejected(ModelledRejection) <==> !stale && drawn)
                     && (r == rejected(NoLiquidity) <==> !stale && !drawn && quantity <= 0)
                     && (r == rejected(LimitNotMarketable) <==> !stale && !drawn && quantity > 0 && beyond)
                     && (r.Failure? <==> !stale && !drawn && quantity > 0 && !beyond && below)
                     && (r.Success? && r.value.Filled? <==> !stale && !drawn && quantity > 0 && !beyond && !below))
  {
    var leg := FindLeg(state, intent.instrumentId);
    if leg.Some? {
      var quote := model.QuoteFor(leg.value);
      var quantity := model.FillableQuantity(intent.quantity, quote);
      if quote.bid.Some? && quote.ask.Some? && quantity > 0 {
        var slipped := FillPrice(model, quote, intent.side, quantity);
        NegativeProduct(if intent.orderType.Limit? then intent.orderType.limitPrice else slipped, quantity);
      }
    }
  }

  lemma NegativeProduct(price: real, quantity: int)
    ensures quantity > 0 ==> (Turnover(price, quantity) < 0.0 <==> price < 0.0)
  {
  }

  /** A sell of 100 against a volume of 1 on a 1/3 quote is priced at -99.0, and the call raises. */
  lemma SellBelowZeroRaises(costModel: CostModel)
    ensures var model := FillModel(0, SizeImpact, 0.5, 0.0, false, 0.0, 0.0, false, costModel, 1.0);
            var leg := OptionLeg(7, Some(1.0), Some(3.0), None, Some(1), false);
            SimulateFill(TradeIntent("ti", 7, Sell, 100, Market, 0), [leg], model, _ => 0.0).Failure?
  {
    var model := FillModel(0, SizeImpact, 0.5, 0.0, false, 0.0, 0.0, false, costModel, 1.0);
    var leg := OptionLeg(7, Some(1.0), Some(3.0), None, Some(1), false);
    var intent := TradeIntent("ti", 7, Sell, 100, Market, 0);
    RaisesExactlyBelowZero(intent, [leg], model, _ => 0.0);
    var quote := model.QuoteFor(leg);
    assert model.RawPrice(1.0, 3.0, Some(1), Sell, 100) == -99.0;
    RoundToTickNearest(-99.0, 1.0);
  }
}
