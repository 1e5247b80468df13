// The backtest ledger: signed average-cost positions, cash, realized P&L, fees,
// and idempotent application of fills.

module BookKeeping {
  import opened Wrappers
  import opened Sums
  import opened Sorting
  import opened Rounding
  import opened Costs
  import opened Fills

  /** The idempotency key of a fill: intent, quantity and price. */
  datatype FillKey = FillKey(intentId: string, quantity: int, price: real)

  function KeyOf(fill: Fill): FillKey {
    FillKey(fill.intentId, fill.quantity, fill.price)
  }

  function Signed(fill: Fill): int {
    fill.quantity * fill.side.Sign()
  }

  /** A net position: positive long, negative short, with the cost basis of the open quantity. */
  datatype Position = Position(instrumentId: int, quantity: int, averagePrice: real) {
    function Basis(): real {
      averagePrice * quantity as real
    }

    function UnrealizedPnl(mark: real): real {
      (mark - averagePrice) * quantity as real
    }
  }

  datatype Book = Book(
    openingCash: real,
    cash: real,
    positions: map<int, Position>,
    realized: real,
    fees: real,
    slippage: real,
    costs: CostBreakdown,
    applied: set<FillKey>,
    duplicates: nat)
  {
    function Quantity(instrumentId: int): int {
      if instrumentId in positions then positions[instrumentId].quantity else 0
    }

    /** Positions are filed under their own instrument. */
    ghost predicate Valid() {
      forall k | k in positions :: positions[k].instrumentId == k
    }

    /** Cash plus cost basis is what was put in, plus what was realized, less fees. */
    ghost predicate Balanced() {
      cash + TotalBasis(positions) == openingCash + realized - fees
    }
  }

  function Opened(openingCash: real): Book {
    Book(openingCash, openingCash, map[], 0.0, 0.0, 0.0, NO_COSTS, {}, 0)
  }

  function Abs(x: int): nat {
    if x < 0 then -x else x
  }

  /** Fold a signed quantity into an open position: the new position and the P&L realized. */
  function Merge(existing: Position, signed: int, price: real): (r: (Position, real))
    requires existing.quantity != 0
  {
    var held := existing.quantity;
    if (held > 0) == (signed > 0) then
      var total := held + signed;
      var cost := existing.averagePrice * held as real + price * signed as real;
      (Position(existing.instrumentId, total, cost / total as real), 0.0)
    else
      var closing := if Abs(signed) <= Abs(held) then Abs(signed) else Abs(held);
      var direction := if held > 0 then 1 else -1;
      var realized := (price - existing.averagePrice) * (closing * direction) as real;
      var remaining := held + signed;
      if remaining == 0 then
        (Position(existing.instrumentId, 0, 0.0), realized)
      else if (remaining > 0) == (held > 0) then
        (Position(existing.instrumentId, remaining, existing.averagePrice), realized)
      else
        (Position(existing.instrumentId, remaining, price), realized)
  }

  /** The part of `held` that a fill the other way closes, signed like `held`. */
  lemma ClosedPart(held: int, signed: int)
    ensures held != 0 && (held > 0) != (signed > 0) ==>
              (if Abs(signed) <= Abs(held) then Abs(signed) else Abs(held)) * (if held > 0 then 1 else -1)
                == if Abs(signed) <= Abs(held) then -signed else held
  {
  }

  lemma DivideBack(cost: real, total: real)
    ensures total != 0.0 ==> cost / total * total == cost
  {
  }

  lemma CloseGain(avg: real, price: real, held: real, signed: real)
    ensures (price - avg) * -signed == (avg * (held + signed) - avg * held) - signed * price
    ensures (price - avg) * held == (price * (held + signed) - avg * held) - signed * price
  {
    assert (price - avg) * -signed == price * -signed - avg * -signed;
    assert avg * (held + signed) == avg * held + avg * signed;
    assert (price - avg) * held == price * held - avg * held;
    assert price * (held + signed) == price * held + price * signed;
  }

  /** Merging conserves value: the basis gained is what was paid plus what was realized. Adding to a
      position realizes nothing; reducing one leaves its average alone; a reversal starts at the price. */
  lemma MergeConserves(existing: Position, signed: int, price: real)
    requires existing.quantity != 0
    ensures var (merged, gain) := Merge(existing, signed, price);
            && merged.instrumentId == existing.instrumentId
            && merged.quantity == existing.quantity + signed
            && merged.Basis() == existing.Basis() + signed as real * price + gain
            && ((existing.quantity > 0) == (signed > 0) ==> gain == 0.0)
            && (merged.quantity == 0 ==> merged.averagePrice == 0.0)
            && ((existing.quantity > 0) != (signed > 0) && merged.quantity != 0 ==>
                  merged.averagePrice == if (merged.quantity > 0) == (existing.quantity > 0)
                                         then existing.averagePrice else price)
  {
    var held, avg := existing.quantity, existing.averagePrice;
    if (held > 0) == (signed > 0) {
      DivideBack(avg * held as real + price * signed as real, (held + signed) as real);
    } else {
      ClosedPart(held, signed);
      CloseGain(avg, price, held as real, signed as real);
    }
  }

  /** The position after a fill, and the P&L it realizes. */
  function NextPosition(positions: map<int, Position>, fill: Fill): (Position, real) {
    if fill.instrumentId in positions && positions[fill.instrumentId].quantity != 0
    then Merge(positions[fill.instrumentId], Signed(fill), fill.price)
    else (Position(fill.instrumentId, Signed(fill), fill.price), 0.0)
  }

  /** The book after a fill that moved its instrument to `position`. */
  function Post(book: Book, fill: Fill, position: Position, gain: real, total: real): Book {
    book.(
      cash := book.cash - Signed(fill) as real * fill.price - total,
      positions := book.positions[fill.instrumentId := position],
      realized := book.realized + gain,
      fees := book.fees + total,
      slippage := book.slippage + fill.SlippagePerUnit() * fill.quantity as real,
      costs := book.costs.Plus(fill.costs),
      applied := book.applied + {KeyOf(fill)})
  }

  /** One call of `apply` on the book's values. */
  function ApplyFill(book: Book, fill: Fill): Book {
    if KeyOf(fill) in book.applied then book.(duplicates := book.duplicates + 1) else
      var (position, gain) := NextPosition(book.positions, fill);
      Post(book, fill, position, gain, fill.costs.Total())
  }

  function ApplyAll(book: Book, fills: seq<Fill>): Book {
    if fills == [] then book
    else ApplyFill(ApplyAll(book, fills[..|fills| - 1]), fills[|fills| - 1])
  }

  // ------------------------------------------------------------ cost basis

  ghost function At(positions: map<int, Position>, v: Position -> real, k: int): real {
    if k in positions then v(positions[k]) else 0.0
  }

  /** The sum of `v` over every position held. */
  ghost function Over(positions: map<int, Position>, v: Position -> real): real {
    SumSet(positions.Keys, k => At(positions, v, k))
  }

  function Bases(): Position -> real {
    (p: Position) => p.Basis()
  }

  ghost function TotalBasis(positions: map<int, Position>): real {
    Over(positions, Bases())
  }

  lemma OverUpdate(positions: map<int, Position>, v: Position -> real, k: int, p: Position)
    ensures Over(positions[k := p], v) == Over(positions, v) - At(positions, v, k) + v(p)
  {
    var after := positions[k := p];
    var f, g := (j: int) => At(positions, v, j), (j: int) => At(after, v, j);
    var others := positions.Keys - {k};
    SumRemove(after.Keys, k, g);
    assert after.Keys - {k} == others;
    SumCongruent(others, f, g);
    if k in positions {
      SumRemove(positions.Keys, k, f);
    } else {
      assert positions.Keys == others;
    }
  }

  // ------------------------------------------------------- the ledger identity

  ghost function BasisAt(positions: map<int, Position>, k: int): real {
    if k in positions then positions[k].Basis() else 0.0
  }

  /** A fill changes its instrument's basis by what was paid and what was realized. */
  lemma NextPositionConserves(positions: map<int, Position>, fill: Fill)
    requires fill.instrumentId in positions ==> positions[fill.instrumentId].instrumentId == fill.instrumentId
    ensures var (position, gain) := NextPosition(positions, fill);
            && position.instrumentId == fill.instrumentId
            && position.Basis() == BasisAt(positions, fill.instrumentId) + Signed(fill) as real * fill.price + gain
  {
    hide Merge, Signed;
    var k := fill.instrumentId;
    if k in positions && positions[k].quantity != 0 {
      MergeConserves(positions[k], Signed(fill), fill.price);
    }
  }

  lemma PostBalanced(book: Book, fill: Fill, p: Position, gain: real, total: real)
    requires book.Balanced() && book.Valid() && p.instrumentId == fill.instrumentId
    requires p.Basis() == BasisAt(book.positions, fill.instrumentId) + Signed(fill) as real * fill.price + gain
    ensures Post(book, fill, p, gain, total).Balanced() && Post(book, fill, p, gain, total).Valid()
  {
    OverUpdate(book.positions, Bases(), fill.instrumentId, p);
  }

  lemma ApplyFillBalanced(book: Book, fill: Fill)
    requires book.Balanced() && book.Valid()
    ensures ApplyFill(book, fill).Balanced() && ApplyFill(book, fill).Valid()
  {
    if KeyOf(fill) !in book.applied {
      var (position, gain) := NextPosition(book.positions, fill);
      NextPositionConserves(book.positions, fill);
      PostBalanced(book, fill, position, gain, fill.costs.Total());
    }
  }

  /** Cash + cost basis = opening cash + realized - fees, after any sequence of fills. */
  lemma {:induction false} LedgerIdentity(book: Book, fills: seq<Fill>)
    requires book.Balanced() && book.Valid()
    ensures ApplyAll(book, fills).Balanced() && ApplyAll(book, fills).Valid()
    ensures ApplyAll(book, fills).openingCash == book.openingCash
  {
    if fills != [] {
      var before := fills[..|fills| - 1];
      LedgerIdentity(book, before);
      ApplyFillBalanced(ApplyAll(book, before), fills[|fills| - 1]);
    }
  }

  // ---------------------------------------------------------------- snapshots

  /** The open positions among `keys`, in order. */
  function OpenAmong(keys: seq<int>, positions: map<int, Position>): seq<Position>
    requires forall k | k in keys :: k in positions
  {
    if keys == [] then [] else
      var k := keys[|keys| - 1];
      assert k in keys;
      OpenAmong(keys[..|keys| - 1], positions) + if positions[k].quantity == 0 then [] else [positions[k]]
  }

  /** `positions()`: the open book, sorted by instrument. */
  function OpenPositions(positions: map<int, Position>): seq<Position> {
    var keys := Sorted(positions.Keys, AtMost());
    SortedElements(positions.Keys, AtMost());
    OpenAmong(keys, positions)
  }

  lemma {:induction false} OpenAmongMembers(keys: seq<int>, positions: map<int, Position>, p: Position)
    requires forall k | k in keys :: k in positions
    ensures p in OpenAmong(keys, positions) <==> p.quantity != 0 && exists k | k in keys :: positions[k] == p
  {
    if keys != [] {
      var before, k := keys[..|keys| - 1], keys[|keys| - 1];
      assert keys == before + [k];
      OpenAmongMembers(before, positions, p);
    }
  }

  lemma {:induction false} OpenAmongIncreasing(keys: seq<int>, positions: map<int, Position>)
    requires forall k | k in keys :: k in positions && positions[k].instrumentId == k
    requires Increasing(keys, AtMost())
    ensures var open := OpenAmong(keys, positions);
            forall i, j | 0 <= i < j < |open| :: open[i].instrumentId < open[j].instrumentId
  {
    if keys != [] {
      var before, last := keys[..|keys| - 1], keys[|keys| - 1];
      OpenAmongIncreasing(before, positions);
      var open := OpenAmong(before, positions);
      forall i | 0 <= i < |open| ensures open[i].instrumentId < last {
        OpenAmongMembers(before, positions, open[i]);
        var k :| k in before && positions[k] == open[i];
        var j :| 0 <= j < |before| && before[j] == k;
        assert keys[j] == k;
      }
    }
  }

  /** The open book lists each open position once, by increasing instrument. */
  lemma OpenPositionsExactly(book: Book)
    requires book.Valid()
    ensures var open := OpenPositions(book.positions);
            && (forall p :: p in open <==> p.quantity != 0 && p.instrumentId in book.positions
                                             && book.positions[p.instrumentId] == p)
            && (forall i, j | 0 <= i < j < |open| :: open[i].instrumentId < open[j].instrumentId)
  {
    var ps := book.positions;
    var keys := Sorted(ps.Keys, AtMost());
    SortedElements(ps.Keys, AtMost());
    SortedIncreasing(ps.Keys, AtMost());
    OpenAmongIncreasing(keys, ps);
    assert OpenPositions(ps) == OpenAmong(keys, ps);
    forall p ensures p in OpenPositions(ps)
                     <==> p.quantity != 0 && p.instrumentId in ps && ps[p.instrumentId] == p
    {
      OpenAmongMembers(keys, ps, p);
    }
  }

  function Unrealized(p: Position, marks: map<int, real>): real {
    if p.instrumentId in marks then p.UnrealizedPnl(marks[p.instrumentId]) else 0.0
  }

  function Gains(marks: map<int, real>): Position -> real {
    p => Unrealized(p, marks)
  }

  function Unmarked(open: seq<Position>, marks: map<int, real>): seq<int> {
    if open == [] then [] else
      var last := open[|open| - 1];
      Unmarked(open[..|open| - 1], marks) + if last.instrumentId in marks then [] else [last.instrumentId]
  }

  datatype LedgerSnapshot = LedgerSnapshot(
    cash: real,
    positions: seq<Position>,
    realizedPnl: real,
    fees: real,
    slippageCost: real,
    unrealizedPnl: real,
    unmarkedInstruments: seq<int>,
    fillsApplied: nat)
  {
    function GrossPnl(): real {
      realizedPnl + unrealizedPnl
    }

    function NetPnl(): real {
      GrossPnl() - fees
    }

    function Equity(): real {
      cash + SumSeq(positions, Bases()) + unrealizedPnl
    }
  }

  function SnapshotOf(book: Book, marks: map<int, real>): LedgerSnapshot {
    var open := OpenPositions(book.positions);
    LedgerSnapshot(
      book.cash, open, book.realized, book.fees, book.slippage,
      SumSeq(open, Gains(marks)), Unmarked(open, marks), |book.applied|)
  }

  /** Summing along the open book is summing over all positions, if flat ones contribute nothing. */
  lemma {:induction false} OpenSum(keys: seq<int>, positions: map<int, Position>, v: Position -> real)
    requires forall k | k in keys :: k in positions
    requires forall k | k in positions && positions[k].quantity == 0 :: v(positions[k]) == 0.0
    ensures SumSeq(OpenAmong(keys, positions), v) == SumSeq(keys, k => At(positions, v, k))
  {
    if keys != [] {
      var before, k := keys[..|keys| - 1], keys[|keys| - 1];
      OpenSum(before, positions, v);
      var open := OpenAmong(before, positions);
      if positions[k].quantity != 0 {
        assert (open + [positions[k]])[..|open|] == open;
      } else {
        assert OpenAmong(keys, positions) == open;
      }
    }
  }

  lemma OpenPositionsSum(positions: map<int, Position>, v: Position -> real)
    requires forall k | k in positions && positions[k].quantity == 0 :: v(positions[k]) == 0.0
    ensures SumSeq(OpenPositions(positions), v) == Over(positions, v)
  {
    var keys := Sorted(positions.Keys, AtMost());
    SortedElements(positions.Keys, AtMost());
    SortedIncreasing(positions.Keys, AtMost());
    OpenSum(keys, positions, v);
    SumSeqIsSumSet(keys, k => At(positions, v, k));
    assert (set k | k in keys) == positions.Keys;
  }

  /** Equity is opening cash plus net P&L, whatever prices are supplied and whichever are missing. */
  lemma EquityIsOpeningPlusNet(book: Book, marks: map<int, real>)
    requires book.Balanced()
    ensures SnapshotOf(book, marks).Equity() == book.openingCash + SnapshotOf(book, marks).NetPnl()
  {
    OpenPositionsSum(book.positions, Bases());
  }

  /** A position is named as unmarked exactly when it is open and has no mark. */
  lemma {:induction false} UnmarkedExactly(open: seq<Position>, marks: map<int, real>, k: int)
    ensures k in Unmarked(open, marks) <==> k !in marks && exists p | p in open :: p.instrumentId == k
  {
    if open != [] {
      var before, last := open[..|open| - 1], open[|open| - 1];
      UnmarkedExactly(before, marks, k);
      assert forall p :: p in open <==> p in before || p == last;
    }
  }

  ghost predicate FullyMarked(book: Book, marks: map<int, real>) {
    forall k | k in book.positions && book.positions[k].quantity != 0 :: k in marks
  }

  ghost function MarketValue(book: Book, marks: map<int, real>, k: int): real {
    if k in marks then marks[k] * book.Quantity(k) as real else 0.0
  }

  /** At its mark, or without one at what it cost. */
  ghost function CarriedValue(book: Book, marks: map<int, real>, k: int): real {
    if k in marks then marks[k] * book.Quantity(k) as real
    else if k in book.positions then book.positions[k].averagePrice * book.Quantity(k) as real
    else 0.0
  }

  ghost function MarketValues(book: Book, marks: map<int, real>): int -> real {
    k => MarketValue(book, marks, k)
  }

  lemma EquityParts(book: Book, marks: map<int, real>)
    ensures SnapshotOf(book, marks).Equity()
              == book.cash + Over(book.positions, Bases()) + Over(book.positions, Gains(marks))
  {
    OpenPositionsSum(book.positions, Bases());
    OpenPositionsSum(book.positions, Gains(marks));
  }

  ghost function CarriedValues(book: Book, marks: map<int, real>): int -> real {
    k => CarriedValue(book, marks, k)
  }

  lemma MarkSplits(p: Position, marks: map<int, real>)
    ensures p.Basis() + Unrealized(p, marks)
              == if p.instrumentId in marks then marks[p.instrumentId] * p.quantity as real else p.Basis()
  {
    if p.instrumentId in marks {
      var m, q := marks[p.instrumentId], p.quantity as real;
      assert (m - p.averagePrice) * q == m * q - p.averagePrice * q;
    }
  }

  lemma CarriedIsBasisAndGain(book: Book, marks: map<int, real>, k: int)
    requires book.Valid()
    ensures k in book.positions ==>
              CarriedValues(book, marks)(k) == Bases()(book.positions[k]) + Gains(marks)(book.positions[k])
  {
    if k in book.positions {
      MarkSplits(book.positions[k], marks);
    }
  }

  /** Equity is cash plus quantity times mark, where there is a mark, and quantity times cost where there is none. */
  lemma EquityAtMarksOrCost(book: Book, marks: map<int, real>)
    requires book.Valid()
    ensures SnapshotOf(book, marks).Equity()
              == book.cash + SumSet(book.positions.Keys, CarriedValues(book, marks))
  {
    hide SnapshotOf, Bases, Gains, CarriedValues, LedgerSnapshot.Equity;
    var ps := book.positions;
    var f, g, h := k => At(ps, Bases(), k), k => At(ps, Gains(marks), k), CarriedValues(book, marks);
    EquityParts(book, marks);
    forall k | k in ps.Keys ensures h(k) == f(k) + g(k) {
      CarriedIsBasisAndGain(book, marks, k);
    }
    SumPlus(ps.Keys, f, g, h);
  }

  /** With every open position marked, equity is cash plus quantity times mark. */
  lemma FullyMarkedEquity(book: Book, marks: map<int, real>)
    requires book.Valid() && FullyMarked(book, marks)
    ensures SnapshotOf(book, marks).Equity()
              == book.cash + SumSet(book.positions.Keys, MarketValues(book, marks))
  {
    hide SnapshotOf;
    EquityAtMarksOrCost(book, marks);
    SumCongruent(book.positions.Keys, CarriedValues(book, marks), MarketValues(book, marks));
  }

  // -------------------------------------------------------------- idempotence

  /** The fills whose key was not seen before, in order. */
  function FirstOccurrences(applied: set<FillKey>, fills: seq<Fill>): seq<Fill> {
    if fills == [] then [] else
      var before, last := fills[..|fills| - 1], fills[|fills| - 1];
      var kept := FirstOccurrences(applied, before);
      if KeyOf(last) in applied || (exists f | f in before :: KeyOf(f) == KeyOf(last)) then kept else kept + [last]
  }

  lemma {:induction false} AppliedKeys(book: Book, fills: seq<Fill>)
    ensures ApplyAll(book, fills).applied == book.applied + set f | f in fills :: KeyOf(f)
  {
    if fills != [] {
      var before, last := fills[..|fills| - 1], fills[|fills| - 1];
      AppliedKeys(book, before);
      assert forall f :: f in fills <==> f in before || f == last;
    }
  }

  lemma DuplicateCountIsInert(book: Book, n: nat, fill: Fill)
    ensures KeyOf(fill) !in book.applied ==>
              ApplyFill(book.(duplicates := n), fill) == ApplyFill(book, fill).(duplicates := n)
    ensures KeyOf(fill) !in book.applied ==> ApplyFill(book, fill).duplicates == book.duplicates
  {
  }

  lemma {:induction false} DuplicatesAreFree(book: Book, fills: seq<Fill>)
    ensures var first := FirstOccurrences(book.applied, fills);
            && ApplyAll(book, fills) == ApplyAll(book, first).(duplicates := ApplyAll(book, fills).duplicates)
            && ApplyAll(book, first).duplicates == book.duplicates
  {
    if fills != [] {
      var before, last := fills[..|fills| - 1], fills[|fills| - 1];
      DuplicatesAreFree(book, before);
      AppliedKeys(book, before);
      var kept := FirstOccurrences(book.applied, before);
      if KeyOf(last) !in ApplyAll(book, before).applied {
        var first, once := kept + [last], ApplyAll(book, kept);
        assert first[..|first| - 1] == kept;
        assert ApplyAll(book, first) == ApplyFill(once, last);
        DuplicateCountIsInert(once, ApplyAll(book, before).duplicates, last);
      }
    }
  }

  lemma {:induction false} EveryCallCounts(book: Book, fills: seq<Fill>)
    ensures var after := ApplyAll(book, fills);
            && |after.applied| == |book.applied| + |FirstOccurrences(book.applied, fills)|
            && |after.applied| + after.duplicates == |book.applied| + book.duplicates + |fills|
  {
    hide KeyOf, NextPosition;
    if fills != [] {
      EveryCallCounts(book, fills[..|fills| - 1]);
      AppliedKeys(book, fills[..|fills| - 1]);
    }
  }

  /** Redelivered fills change nothing: the book is that of the first occurrences alone,
      and every call is counted once, as applied or as a duplicate. */
  lemma ReplayIsIdempotent(book: Book, fills: seq<Fill>)
    ensures var after, once := ApplyAll(book, fills), ApplyAll(book, FirstOccurrences(book.applied, fills));
            && after == once.(duplicates := after.duplicates)
            && once.duplicates == book.duplicates
            && |after.applied| == |book.applied| + |FirstOccurrences(book.applied, fills)|
            && |after.applied| + after.duplicates == |book.applied| + book.duplicates + |fills|
  {
    DuplicatesAreFree(book, fills);
    EveryCallCounts(book, fills);
  }

  // -------------------------------------------------------- order independence

  /** Equal keys mean equal fills, as content-addressed intent ids make them. */
  ghost predicate KeysIdentify(fills: seq<Fill>) {
    forall f, g | f in fills && g in fills && KeyOf(f) == KeyOf(g) :: f == g
  }

  ghost function SetOf(fills: seq<Fill>): set<Fill> {
    set f | f in fills
  }

  function Flows(): Fill -> real {
    f => FlowOf(f)
  }

  /** A purchase pays quantity times price, a sale brings it in; both pay the charges. */
  function FlowOf(fill: Fill): real {
    (if fill.side.Buy? then -(fill.quantity as real * fill.price) else fill.quantity as real * fill.price)
      - fill.costs.Total()
  }

  function Charges(): Fill -> real {
    (f: Fill) => f.costs.Total()
  }

  function QuantitiesIn(k: int): Fill -> real {
    (f: Fill) => if f.instrumentId != k then 0.0 else if f.side.Buy? then f.quantity as real else -(f.quantity as real)
  }

  /** What a fill cost against the mid it was referenced to: paid above it, or received below it. */
  function SlippageOf(fill: Fill): real {
    (if fill.side.Buy? then fill.price - fill.referencePrice else fill.referencePrice - fill.price)
      * fill.quantity as real
  }

  function Slippages(): Fill -> real {
    f => SlippageOf(f)
  }

  /** A fill is ignored exactly when one with its intent, quantity and price was applied; any other is applied. */
  lemma IgnoredExactly(openingCash: real, fills: seq<Fill>, fill: Fill)
    ensures var book := ApplyAll(Opened(openingCash), fills);
            var repeated := exists f | f in fills ::
              f.intentId == fill.intentId && f.quantity == fill.quantity && f.price == fill.price;
            && (repeated ==> ApplyFill(book, fill) == book.(duplicates := book.duplicates + 1))
            && (!repeated ==> |ApplyFill(book, fill).applied| == |book.applied| + 1
                              && ApplyFill(book, fill).duplicates == book.duplicates)
  {
    hide NextPosition, ApplyAll;
    AppliedKeys(Opened(openingCash), fills);
  }

  lemma SignedFlow(fill: Fill)
    ensures FlowOf(fill) == -(Signed(fill) as real * fill.price) - fill.costs.Total()
    ensures SlippageOf(fill) == fill.SlippagePerUnit() * fill.quantity as real
  {
    if fill.side.Sell? {
      assert Signed(fill) == -fill.quantity;
      assert -(fill.quantity as real) * fill.price == -(fill.quantity as real * fill.price);
    } else {
      assert Signed(fill) == fill.quantity;
    }
  }

  /** What one call adds to the three running sums. */
  lemma FillAdds(book: Book, fill: Fill)
    ensures var after := ApplyFill(book, fill);
            if KeyOf(fill) in book.applied
            then after.cash == book.cash && after.fees == book.fees && after.slippage == book.slippage
            else && after.cash == book.cash + Flows()(fill)
                 && after.fees == book.fees + Charges()(fill)
                 && after.slippage == book.slippage + Slippages()(fill)
  {
    hide FlowOf, SlippageOf, Fill.SlippagePerUnit, Signed, NextPosition, KeyOf, CostBreakdown.Total;
    SignedFlow(fill);
  }

  /** The last fill either was received before, or is a new key. */
  lemma LastIsNewOrRepeated(openingCash: real, fills: seq<Fill>)
    requires fills != [] && KeysIdentify(fills)
    ensures var before, last := fills[..|fills| - 1], fills[|fills| - 1];
            && KeysIdentify(before)
            && SetOf(fills) == SetOf(before) + {last}
            && (KeyOf(last) in ApplyAll(Opened(openingCash), before).applied <==> last in SetOf(before))
  {
    var before, last := fills[..|fills| - 1], fills[|fills| - 1];
    assert forall f :: f in fills <==> f in before || f == last;
    AppliedKeys(Opened(openingCash), before);
  }

  /** Cash, fees and slippage are sums over the set of fills received. */
  lemma {:induction false} CashIsSumOfFills(openingCash: real, fills: seq<Fill>)
    requires KeysIdentify(fills)
    ensures ApplyAll(Opened(openingCash), fills).cash == openingCash + SumSet(SetOf(fills), Flows())
    ensures ApplyAll(Opened(openingCash), fills).fees == SumSet(SetOf(fills), Charges())
    ensures ApplyAll(Opened(openingCash), fills).slippage == SumSet(SetOf(fills), Slippages())
  {
    hide ApplyFill, Flows, Charges, Slippages, KeyOf;
    if fills == [] {
      assert SetOf(fills) == {};
    } else {
      var before, last := fills[..|fills| - 1], fills[|fills| - 1];
      LastIsNewOrRepeated(openingCash, fills);
      CashIsSumOfFills(openingCash, before);
      FillAdds(ApplyAll(Opened(openingCash), before), last);
      if last in SetOf(before) {
        assert SetOf(fills) == SetOf(before);
      } else {
        SumAdd(SetOf(before), last, Flows());
        SumAdd(SetOf(before), last, Charges());
        SumAdd(SetOf(before), last, Slippages());
      }
    }
  }

  /** The snapshot reports them, and as many fills as were different. */
  lemma {:induction false} SnapshotReportsFills(openingCash: real, fills: seq<Fill>, marks: map<int, real>)
    requires KeysIdentify(fills)
    ensures var snapshot := SnapshotOf(ApplyAll(Opened(openingCash), fills), marks);
            && snapshot.cash == openingCash + SumSet(SetOf(fills), Flows())
            && snapshot.fees == SumSet(SetOf(fills), Charges())
            && snapshot.slippageCost == SumSet(SetOf(fills), Slippages())
            && snapshot.fillsApplied == |SetOf(fills)|
  {
    hide ApplyAll, OpenPositions, Gains, Unmarked, Flows, Charges, Slippages;
    CashIsSumOfFills(openingCash, fills);
    DifferentFillsCounted(openingCash, fills);
  }

  lemma {:induction false} DifferentFillsCounted(openingCash: real, fills: seq<Fill>)
    requires KeysIdentify(fills)
    ensures |ApplyAll(Opened(openingCash), fills).applied| == |SetOf(fills)|
  {
    hide KeyOf, NextPosition;
    if fills == [] {
      assert SetOf(fills) == {};
    } else {
      LastIsNewOrRepeated(openingCash, fills);
      DifferentFillsCounted(openingCash, fills[..|fills| - 1]);
    }
  }

  /** Net quantities too. */
  lemma {:induction false} QuantityIsSumOfFills(openingCash: real, fills: seq<Fill>, k: int)
    requires KeysIdentify(fills)
    ensures ApplyAll(Opened(openingCash), fills).Quantity(k) as real == SumSet(SetOf(fills), QuantitiesIn(k))
  {
    if fills == [] {
      assert SetOf(fills) == {};
    } else {
      var before, last := fills[..|fills| - 1], fills[|fills| - 1];
      LastIsNewOrRepeated(openingCash, fills);
      QuantityIsSumOfFills(openingCash, before, k);
      if last in SetOf(before) {
        assert SetOf(fills) == SetOf(before);
      } else {
        SumAdd(SetOf(before), last, QuantitiesIn(k));
      }
    }
  }

  /** Two orders of the same fills, redelivered or not, give the same cash, fees, quantities
      and fully-marked equity. */
  lemma OrderDoesNotMatter(openingCash: real, fills: seq<Fill>, other: seq<Fill>, marks: map<int, real>)
    requires KeysIdentify(fills)
    requires forall f :: f in fills <==> f in other
    ensures var a, b := ApplyAll(Opened(openingCash), fills), ApplyAll(Opened(openingCash), other);
            && a.cash == b.cash && a.fees == b.fees && a.applied == b.applied
            && (forall k :: a.Quantity(k) == b.Quantity(k))
            && (FullyMarked(a, marks) && FullyMarked(b, marks) ==>
                  SnapshotOf(a, marks).Equity() == SnapshotOf(b, marks).Equity())
  {
    hide ApplyAll, KeyOf, FullyMarked, SnapshotOf, Opened;
    var start := Opened(openingCash);
    var a, b := ApplyAll(start, fills), ApplyAll(start, other);
    assert KeysIdentify(other) by {
      forall f, g | f in other && g in other && KeyOf(f) == KeyOf(g) ensures f == g {
        assert f in fills && g in fills;
      }
    }
    assert SetOf(fills) == SetOf(other);
    forall k ensures a.Quantity(k) == b.Quantity(k) {
      QuantityIsSumOfFills(openingCash, fills, k);
      QuantityIsSumOfFills(openingCash, other, k);
    }
    CashIsSumOfFills(openingCash, fills);
    CashIsSumOfFills(openingCash, other);
    AppliedKeys(start, fills);
    AppliedKeys(start, other);
    assert (set f | f in fills :: KeyOf(f)) == (set f | f in other :: KeyOf(f));
    if FullyMarked(a, marks) && FullyMarked(b, marks) {
      OpenedBalanced(openingCash);
      LedgerIdentity(start, fills);
      LedgerIdentity(start, other);
      SameMarkedEquity(a, b, marks);
    }
  }

  lemma OpenedBalanced(openingCash: real)
    ensures Opened(openingCash).Balanced() && Opened(openingCash).Valid()
  {
  }

  lemma ValuesExtend(book: Book, marks: map<int, real>, keys: set<int>)
    requires book.positions.Keys <= keys
    ensures SumSet(book.positions.Keys, MarketValues(book, marks)) == SumSet(keys, MarketValues(book, marks))
  {
    var f := MarketValues(book, marks);
    forall k | k in keys - book.positions.Keys ensures f(k) == 0.0 {
      assert book.Quantity(k) == 0;
    }
    SumSupport(book.positions.Keys, keys, f);
  }

  lemma SameValues(a: Book, b: Book, marks: map<int, real>)
    requires forall k :: a.Quantity(k) == b.Quantity(k)
    ensures SumSet(a.positions.Keys, MarketValues(a, marks)) == SumSet(b.positions.Keys, MarketValues(b, marks))
  {
    var keys := a.positions.Keys + b.positions.Keys;
    ValuesExtend(a, marks, keys);
    ValuesExtend(b, marks, keys);
    forall k ensures MarketValues(a, marks)(k) == MarketValues(b, marks)(k) {
      assert a.Quantity(k) == b.Quantity(k);
    }
    SumCongruent(keys, MarketValues(a, marks), MarketValues(b, marks));
  }

  lemma SameMarkedEquity(a: Book, b: Book, marks: map<int, real>)
    requires a.Valid() && b.Valid() && FullyMarked(a, marks) && FullyMarked(b, marks)
    requires a.cash == b.cash && forall k :: a.Quantity(k) == b.Quantity(k)
    ensures SnapshotOf(a, marks).Equity() == SnapshotOf(b, marks).Equity()
  {
    FullyMarkedEquity(a, marks);
    FullyMarkedEquity(b, marks);
    SameValues(a, b, marks);
  }

  lemma ThreeFills(book: Book, f: Fill, g: Fill, h: Fill)
    ensures ApplyAll(book, [f, g, h]) == ApplyFill(ApplyFill(ApplyFill(book, f), g), h)
  {
    assert [f, g, h][..2] == [f, g] && [f, g][..1] == [f] && [f][..0] == [];
    assert ApplyAll(book, [f]) == ApplyFill(ApplyAll(book, []), f);
    assert ApplyAll(book, [f, g]) == ApplyFill(ApplyAll(book, [f]), g);
  }

  lemma MergeExamples()
    ensures Merge(Position(1, 1, 10.0), 1, 20.0) == (Position(1, 2, 15.0), 0.0)
    ensures Merge(Position(1, 2, 15.0), -1, 30.0).1 == 15.0
    ensures Merge(Position(1, 1, 10.0), -1, 30.0) == (Position(1, 0, 0.0), 20.0)
  {
    MergeConserves(Position(1, 1, 10.0), 1, 20.0);
  }

  function Unit(id: string, side: Side, price: real): Fill {
    Fill(id, 1, side, 1, price, price, 0, ObservedQuote, NO_COSTS, 1)
  }

  /** A new fill of one unit posts what `NextPosition` says. */
  lemma UnitPosts(book: Book, id: string, side: Side, price: real)
    requires KeyOf(Unit(id, side, price)) !in book.applied
    ensures var after, next := ApplyFill(book, Unit(id, side, price)), NextPosition(book.positions, Unit(id, side, price));
            && after.positions == book.positions[1 := next.0]
            && after.realized == book.realized + next.1
            && after.applied == book.applied + {KeyOf(Unit(id, side, price))}
  {
    hide NextPosition, KeyOf;
  }

  lemma UnitKeys(a: string, x: Side, p: real, b: string, y: Side, q: real)
    ensures a != b ==> KeyOf(Unit(a, x, p)) != KeyOf(Unit(b, y, q))
  {
  }

  lemma UnitMerges(positions: map<int, Position>, id: string, side: Side, price: real)
    ensures NextPosition(positions, Unit(id, side, price))
              == if 1 in positions && positions[1].quantity != 0
                 then Merge(positions[1], if side.Buy? then 1 else -1, price)
                 else (Position(1, if side.Buy? then 1 else -1, price), 0.0)
  {
    hide Merge;
  }

  /** Bought at 10, then these two. */
  lemma AfterTen(second: string, side: Side, price: real, third: string, last: Side, lastPrice: real)
    requires second != "a" && third != "a" && second != third
    ensures var fills := [Unit("a", Buy, 10.0), Unit(second, side, price), Unit(third, last, lastPrice)];
            var book := ApplyAll(Opened(0.0), fills);
            var merged := Merge(Position(1, 1, 10.0), if side.Buy? then 1 else -1, price);
            book.realized == merged.1 + NextPosition(map[1 := merged.0], Unit(third, last, lastPrice)).1
  {
    hide Merge, ApplyFill, ApplyAll, Unit, KeyOf, NextPosition;
    var a, b, c := Unit("a", Buy, 10.0), Unit(second, side, price), Unit(third, last, lastPrice);
    ThreeFills(Opened(0.0), a, b, c);
    UnitKeys("a", Buy, 10.0, second, side, price);
    UnitKeys("a", Buy, 10.0, third, last, lastPrice);
    UnitKeys(second, side, price, third, last, lastPrice);
    UnitPosts(Opened(0.0), "a", Buy, 10.0);
    UnitMerges(map[], "a", Buy, 10.0);
    var x := ApplyFill(Opened(0.0), a);
    assert x.positions == map[1 := Position(1, 1, 10.0)];
    UnitPosts(x, second, side, price);
    UnitMerges(x.positions, second, side, price);
    var y := ApplyFill(x, b);
    assert y.positions == map[1 := Merge(Position(1, 1, 10.0), if side.Buy? then 1 else -1, price).0];
    UnitPosts(y, third, last, lastPrice);
  }

  lemma OrderExample()
    ensures var a, b, c := Unit("a", Buy, 10.0), Unit("b", Buy, 20.0), Unit("c", Sell, 30.0);
            && ApplyAll(Opened(0.0), [a, b, c]).realized == 15.0
            && ApplyAll(Opened(0.0), [a, c, b]).realized == 20.0
  {
    hide Merge, ApplyAll, Unit, NextPosition;
    MergeExamples();
    AfterTen("b", Buy, 20.0, "c", Sell, 30.0);
    UnitMerges(map[1 := Position(1, 2, 15.0)], "c", Sell, 30.0);
    AfterTen("c", Sell, 30.0, "b", Buy, 20.0);
    UnitMerges(map[1 := Position(1, 0, 0.0)], "b", Buy, 20.0);
  }

  lemma DistinctUnits(a: Fill, b: Fill, c: Fill)
    requires a.intentId != b.intentId && b.intentId != c.intentId && a.intentId != c.intentId
    ensures KeysIdentify([a, b, c]) && multiset([a, b, c]) == multiset([a, c, b])
  {
  }

  /** The realized part does depend on the order: buy at 10, buy at 20, sell at 30 realizes 15;
      selling before the second buy realizes 20. */
  lemma RealizedDependsOnOrder()
    ensures var a, b, c := Unit("a", Buy, 10.0), Unit("b", Buy, 20.0), Unit("c", Sell, 30.0);
            && KeysIdentify([a, b, c]) && multiset([a, b, c]) == multiset([a, c, b])
            && ApplyAll(Opened(0.0), [a, b, c]).realized == 15.0
            && ApplyAll(Opened(0.0), [a, c, b]).realized == 20.0
  {
    hide ApplyAll, KeysIdentify, Opened;
    DistinctUnits(Unit("a", Buy, 10.0), Unit("b", Buy, 20.0), Unit("c", Sell, 30.0));
    OrderExample();
  }

  // --------------------------------------------------------------------- fees

  /** With every charge in whole paise, the fees paid are exactly the accumulated breakdown's total. */
  lemma {:induction false} FeesAreTheBreakdownTotal(openingCash: real, fills: seq<Fill>)
    requires forall f | f in fills :: f.costs.InPaise()
    ensures var book := ApplyAll(Opened(openingCash), fills);
            book.costs.InPaise() && book.fees == book.costs.Total()
  {
    if fills == [] {
      TotalIsExact(NO_COSTS);
    } else {
      var before, last := fills[..|fills| - 1], fills[|fills| - 1];
      FeesAreTheBreakdownTotal(openingCash, before);
      var book := ApplyAll(Opened(openingCash), before);
      TotalIsExact(last.costs);
      TotalIsExact(book.costs);
      PlusInPaise(book.costs, last.costs);
      TotalIsExact(book.costs.Plus(last.costs));
    }
  }

  lemma TwoFills(book: Book, f: Fill, g: Fill)
    requires KeyOf(f) !in book.applied && KeyOf(g) !in book.applied && KeyOf(f) != KeyOf(g)
    ensures ApplyAll(book, [f, g]).fees == book.fees + f.costs.Total() + g.costs.Total()
    ensures ApplyAll(book, [f, g]).costs == book.costs.Plus(f.costs).Plus(g.costs)
  {
    assert [f, g][..1] == [f] && [f][..0] == [];
    assert ApplyAll(book, [f]) == ApplyFill(ApplyAll(book, []), f);
  }

  function Brokerage(amount: real): CostBreakdown {
    CostBreakdown(amount, 0.0, 0.0, 0.0, 0.0, 0.0)
  }

  lemma BrokerageTotal(amount: real)
    ensures Brokerage(amount).Total() == RoundPaise(amount)
    ensures NO_COSTS.Plus(Brokerage(amount)).Plus(Brokerage(amount)) == Brokerage(amount + amount)
  {
    assert Brokerage(amount).Sum() == amount;
  }

  lemma HalfPaisaRoundsUp()
    ensures RoundPaise(0.005) == 0.01 && RoundPaise(0.01) == 0.01
  {
    assert HalfUp(0.5) == 1 && HalfUp(1.0) == 1;
  }

  /** Off the paise grid it fails: two charges of half a paisa are each rounded up to one,
      yet total one paisa together. */
  lemma FeesDriftOffTheGrid()
    ensures var f := Unit("a", Buy, 10.0).(costs := Brokerage(0.005));
            var after := ApplyAll(Opened(0.0), [f, f.(intentId := "b")]);
            after.fees == 0.02 && after.costs.Total() == 0.01
  {
    var f := Unit("a", Buy, 10.0).(costs := Brokerage(0.005));
    TwoFills(Opened(0.0), f, f.(intentId := "b"));
    BrokerageTotal(0.005);
    BrokerageTotal(0.01);
    HalfPaisaRoundsUp();
  }

  // ------------------------------------------------------------------ the class

  class Ledger {
    const openingCash: real
    var cash: real
    var positions: map<int, Position>
    var realized: real
    var fees: real
    var slippage: real
    var costs: CostBreakdown
    var applied: set<FillKey>
    var duplicates: nat

    /** The ledger's contents as a value. */
    ghost function Contents(): Book
      reads this
    {
      Book(openingCash, cash, positions, realized, fees, slippage, costs, applied, duplicates)
    }

    // The constructor of the original refuses negative opening cash.
    constructor (openingCash: real)
      requires openingCash >= 0.0
      ensures Contents() == Opened(openingCash)
      ensures Contents().Balanced() && Contents().Valid()
    {
      this.openingCash := openingCash;
      cash := openingCash;
      positions := map[];
      realized, fees, slippage := 0.0, 0.0, 0.0;
      costs := NO_COSTS;
      applied := {};
      duplicates := 0;
      new;
      OpenedBalanced(openingCash);
    }

    /** Apply one fill; false when it was a duplicate and was ignored. */
    method Apply(fill: Fill) returns (isNew: bool)
      modifies this
      ensures Contents() == ApplyFill(old(Contents()), fill)
      ensures isNew <==> KeyOf(fill) !in old(applied)
    {
      hide Merge, Signed, KeyOf;
      var key := KeyOf(fill);
      if key in applied {
        duplicates := duplicates + 1;
        return false;
      }
      applied := applied + {key};
      var signed := Signed(fill);
      cash := cash - signed as real * fill.price;
      var total := fill.costs.Total();
      cash := cash - total;
      fees := fees + total;
      costs := costs.Plus(fill.costs);
      slippage := slippage + fill.SlippagePerUnit() * fill.quantity as real;
      if fill.instrumentId !in positions || positions[fill.instrumentId].quantity == 0 {
        positions := positions[fill.instrumentId := Position(fill.instrumentId, signed, fill.price)];
        assert Contents() == Post(old(Contents()), fill, positions[fill.instrumentId], 0.0, total);
        return true;
      }
      var (merged, gain) := Merge(positions[fill.instrumentId], signed, fill.price);
      realized := realized + gain;
      positions := positions[fill.instrumentId := merged];
      assert Contents() == Post(old(Contents()), fill, merged, gain, total);
      return true;
    }

    /** Apply every fill in order; the number that were not duplicates. */
    method ApplyEach(fills: seq<Fill>) returns (count: nat)
      modifies this
      ensures Contents() == ApplyAll(old(Contents()), fills)
      ensures count == |FirstOccurrences(old(applied), fills)|
    {
      count := 0;
      for i := 0 to |fills|
        invariant Contents() == ApplyAll(old(Contents()), fills[..i])
        invariant count == |FirstOccurrences(old(applied), fills[..i])|
      {
        assert fills[..i + 1][..i] == fills[..i];
        AppliedKeys(old(Contents()), fills[..i]);
        var isNew := Apply(fills[i]);
        if isNew {
          count := count + 1;
        }
      }
      assert fills[..|fills|] == fills;
    }

    /** Mark the book against the supplied prices. */
    method Snapshot(marks: map<int, real>) returns (snapshot: LedgerSnapshot)
      ensures snapshot == SnapshotOf(Contents(), marks)
    {
      var open := OpenPositions(positions);
      var unrealized, unmarked := 0.0, [];
      for i := 0 to |open|
        invariant unrealized == SumSeq(open[..i], Gains(marks))
        invariant unmarked == Unmarked(open[..i], marks)
      {
        var position := open[i];
        assert open[..i + 1][..i] == open[..i];
        if position.instrumentId !in marks {
          unmarked := unmarked + [position.instrumentId];
        } else {
          unrealized := unrealized + position.UnrealizedPnl(marks[position.instrumentId]);
        }
      }
      assert open[..|open|] == open;
      snapshot := LedgerSnapshot(cash, open, realized, fees, slippage, unrealized, unmarked, |applied|);
    }
  }
}
