// The running drawdown, and what it measures.

module Drawdowns {

  function Max(a: real, b: real): real {
    if a >= b then a else b
  }

  /** The high-water mark, seeded with opening cash. */
  function Peak(openingCash: real, equities: seq<real>): real {
    if equities == [] then openingCash
    else Max(Peak(openingCash, equities[..|equities| - 1]), equities[|equities| - 1])
  }

  /** The running drawdown, one reading at a time. */
  function Drawdown(openingCash: real, equities: seq<real>): real {
    if equities == [] then 0.0
    else Max(Drawdown(openingCash, equities[..|equities| - 1]),
             Peak(openingCash, equities) - equities[|equities| - 1])
  }

  /** Equity before reading `i`: opening cash, then the readings. */
  ghost function Level(openingCash: real, equities: seq<real>, i: nat): real
    requires i <= |equities|
  {
    if i == 0 then openingCash else equities[i - 1]
  }

  lemma {:induction false} PeakIsMaximum(openingCash: real, equities: seq<real>)
    ensures forall i | 0 <= i <= |equities| :: Level(openingCash, equities, i) <= Peak(openingCash, equities)
    ensures exists i | 0 <= i <= |equities| :: Level(openingCash, equities, i) == Peak(openingCash, equities)
  {
    if equities == [] {
      assert Level(openingCash, equities, 0) == openingCash;
    } else {
      var before := equities[..|equities| - 1];
      PeakIsMaximum(openingCash, before);
      forall i | 0 <= i <= |equities|
        ensures Level(openingCash, equities, i) <= Peak(openingCash, equities)
      {
        if i < |equities| {
          assert Level(openingCash, equities, i) == Level(openingCash, before, i);
        }
      }
      var k :| 0 <= k <= |before| && Level(openingCash, before, k) == Peak(openingCash, before);
      assert Level(openingCash, equities, k) == Peak(openingCash, before);
      assert Level(openingCash, equities, |equities|) == equities[|equities| - 1];
    }
  }

  /** A fall from one level to a later one. */
  ghost predicate Fall(openingCash: real, equities: seq<real>, i: nat, j: nat, drop: real) {
    i <= j <= |equities| && drop == Level(openingCash, equities, i) - Level(openingCash, equities, j)
  }

  /** One pass computes the largest fall between any two levels, the earlier first. */
  lemma {:induction false} DrawdownIsLargestFall(openingCash: real, equities: seq<real>)
    ensures forall i, j | 0 <= i <= j <= |equities| ::
              Level(openingCash, equities, i) - Level(openingCash, equities, j) <= Drawdown(openingCash, equities)
    ensures exists i, j :: Fall(openingCash, equities, i, j, Drawdown(openingCash, equities))
  {
    if equities == [] {
      assert Fall(openingCash, equities, 0, 0, 0.0);
    } else {
      var n, before := |equities|, equities[..|equities| - 1];
      DrawdownIsLargestFall(openingCash, before);
      PeakIsMaximum(openingCash, equities);
      assert forall i | 0 <= i < n :: Level(openingCash, equities, i) == Level(openingCash, before, i);
      forall i, j | 0 <= i <= j <= n
        ensures Level(openingCash, equities, i) - Level(openingCash, equities, j) <= Drawdown(openingCash, equities)
      {
        if j < n {
          assert Level(openingCash, before, i) - Level(openingCash, before, j) <= Drawdown(openingCash, before);
        }
      }
      if Drawdown(openingCash, equities) == Drawdown(openingCash, before) {
        var i, j :| Fall(openingCash, before, i, j, Drawdown(openingCash, before));
        assert Fall(openingCash, equities, i, j, Drawdown(openingCash, equities));
      } else {
        var i :| 0 <= i <= n && Level(openingCash, equities, i) == Peak(openingCash, equities);
        assert Fall(openingCash, equities, i, n, Drawdown(openingCash, equities));
      }
    }
  }

  lemma {:induction false} PeakGrows(low: real, high: real, equities: seq<real>)
    requires low <= high
    ensures Peak(low, equities) <= Peak(high, equities) && Drawdown(low, equities) <= Drawdown(high, equities)
  {
    if equities != [] {
      PeakGrows(low, high, equities[..|equities| - 1]);
    }
  }

  /** Readings taken in two parts: the later part goes on from the earlier one's peak. Seeded again with opening cash
      it reports no more, and leaves out the falls within the first part and those from its peak. */
  lemma {:induction false} DrawdownInTwo(openingCash: real, first: seq<real>, second: seq<real>)
    ensures Peak(openingCash, first + second) == Peak(Peak(openingCash, first), second)
    ensures Drawdown(openingCash, first + second)
              == Max(Drawdown(openingCash, first), Drawdown(Peak(openingCash, first), second))
    ensures Drawdown(openingCash, second) <= Drawdown(openingCash, first + second)
  {
    PeakIsMaximum(openingCash, first);
    assert Level(openingCash, first, 0) == openingCash;
    PeakGrows(openingCash, Peak(openingCash, first), second);
    if second == [] {
      assert first + second == first;
      DrawdownIsLargestFall(openingCash, first);
      assert Level(openingCash, first, 0) - Level(openingCash, first, 0) <= Drawdown(openingCash, first);
    } else {
      var n := |first + second| - 1;
      assert (first + second)[..n] == first + second[..|second| - 1];
      DrawdownInTwo(openingCash, first, second[..|second| - 1]);
    }
  }
}
