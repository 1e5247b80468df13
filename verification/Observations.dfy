// The bitemporal observation log: append-only, keyed by identity, read only under
// a temporal bound, aware of corrections.

module Observations {
  import opened Wrappers

  datatype Kind = Index | Quote | GreekSet

  /** One stored observation. `key` stands for its identity within its kind, ordered as the original's keys are;
      `supersedes` is the number of the row it corrects, 0 for none. */
  datatype Row = Row(
    kind: Kind,
    key: int,
    instrument: int,
    observedAt: int,
    ingestedAt: int,
    supersedes: nat,
    payload: int)

  datatype Query = Query(instrument: int, kind: Kind)

  // -------------------------------------------------------------------- bounds

  datatype TemporalBound =
    | KnowledgeAt(t: int)
    | MarketTruthAt(validTime: int, knowledgeAsOf: int)

  datatype ResolvedBound = ResolvedBound(observedAtMax: int, ingestedAtMax: int)

  /** The translation to storage predicates; a knowledge horizon before the valid time is refused. */
  function ResolveBound(b: TemporalBound): Option<ResolvedBound> {
    match b
    case KnowledgeAt(t) => Some(ResolvedBound(t, t))
    case MarketTruthAt(valid, known) => if known < valid then None else Some(ResolvedBound(valid, known))
  }

  /** The one bound every read of a build at market time T and knowledge horizon K goes through. */
  function BoundFor(marketTime: int, horizon: int): TemporalBound {
    if horizon == marketTime then KnowledgeAt(marketTime)
    else if horizon < marketTime then KnowledgeAt(horizon)
    else MarketTruthAt(marketTime, horizon)
  }

  predicate Admits(b: ResolvedBound, row: Row) {
    row.observedAt <= b.observedAtMax && row.ingestedAt <= b.ingestedAtMax
  }

  /** A build's bound is never one the storage refuses. */
  lemma BoundIsNeverRefused(marketTime: int, horizon: int)
    ensures ResolveBound(BoundFor(marketTime, horizon)).Some?
  {
  }

  function Resolved(marketTime: int, horizon: int): ResolvedBound {
    ResolveBound(BoundFor(marketTime, horizon)).value
  }

  /** The bound admits what was observed by both T and K and ingested by K. For a row observed no later than it was
      ingested that is the literal pair, observed by T and ingested by K; of rows with clock skew it leaves out
      exactly those the pair would show before K had reached their observation. */
  lemma BoundAdmitsExactly(marketTime: int, horizon: int, row: Row)
    ensures var pair := row.observedAt <= marketTime && row.ingestedAt <= horizon;
            && (Admits(Resolved(marketTime, horizon), row) <==> pair && row.observedAt <= horizon)
            && (row.observedAt <= row.ingestedAt ==> (Admits(Resolved(marketTime, horizon), row) <==> pair))
  {
  }

  /** Knowing more never hides a row. */
  lemma BoundGrows(marketTime: int, horizon: int, later: int, row: Row)
    requires horizon <= later && Admits(Resolved(marketTime, horizon), row)
    ensures Admits(Resolved(marketTime, later), row)
  {
  }

  // --------------------------------------------------------------------- reads

  predicate Matches(b: ResolvedBound, q: Query, row: Row) {
    Admits(b, row) && row.instrument == q.instrument && row.kind == q.kind
  }

  /** Row `i` (whose number is `i + 1`) is corrected by a row visible to the same query. */
  predicate Superseded(rows: seq<Row>, b: ResolvedBound, q: Query, i: nat) {
    exists j | 0 <= j < |rows| :: Matches(b, q, rows[j]) && rows[j].supersedes == i + 1
  }

  predicate Live(rows: seq<Row>, b: ResolvedBound, q: Query, i: nat) {
    i < |rows| && Matches(b, q, rows[i]) && !Superseded(rows, b, q, i)
  }

  /** The order in which a query's rows are sorted. */
  predicate NoLater(r: Row, s: Row) {
    r.observedAt < s.observedAt || (r.observedAt == s.observedAt && r.key <= s.key)
  }

  /** The position of the last live row, in sorted order, among the first `n`. */
  function LatestAmong(rows: seq<Row>, b: ResolvedBound, q: Query, n: nat): (r: Option<nat>)
    requires n <= |rows|
    ensures r.Some? ==> r.value < n
  {
    if n == 0 then None else
      var before := LatestAmong(rows, b, q, n - 1);
      if !Live(rows, b, q, n - 1) || (before.Some? && !NoLater(rows[before.value], rows[n - 1])) then before
      else Some(n - 1)
  }

  function Latest(rows: seq<Row>, b: ResolvedBound, q: Query): Option<Row> {
    match LatestAmong(rows, b, q, |rows|)
    case None => None
    case Some(i) => Some(rows[i])
  }

  lemma {:induction false} LatestAmongIsLast(rows: seq<Row>, b: ResolvedBound, q: Query, n: nat)
    requires n <= |rows|
    ensures var r := LatestAmong(rows, b, q, n);
            && (r.None? <==> forall i | 0 <= i < n :: !Live(rows, b, q, i))
            && (r.Some? ==>
                  && Live(rows, b, q, r.value)
                  && forall i | 0 <= i < n && Live(rows, b, q, i) :: NoLater(rows[i], rows[r.value]))
  {
    hide Live;
    if n > 0 {
      LatestAmongIsLast(rows, b, q, n - 1);
    }
  }

  /** Rows of one kind have different keys, as `append` keeps them. */
  ghost predicate Keyed(rows: seq<Row>) {
    forall i, j | 0 <= i < j < |rows| :: rows[i].kind != rows[j].kind || rows[i].key != rows[j].key
  }

  ghost predicate IsLatest(rows: seq<Row>, b: ResolvedBound, q: Query, row: Row) {
    exists i | 0 <= i < |rows| ::
      && rows[i] == row && Live(rows, b, q, i)
      && forall j | 0 <= j < |rows| && Live(rows, b, q, j) :: NoLater(rows[j], row)
  }

  /** What a query returns: the one visible uncorrected row no other is later than, or nothing if there is none. */
  lemma LatestIsNewest(rows: seq<Row>, b: ResolvedBound, q: Query)
    requires Keyed(rows)
    ensures Latest(rows, b, q).None? <==> forall i | 0 <= i < |rows| :: !Live(rows, b, q, i)
    ensures forall row :: Latest(rows, b, q) == Some(row) <==> IsLatest(rows, b, q, row)
  {
    hide Superseded, Admits;
    LatestAmongIsLast(rows, b, q, |rows|);
    forall row ensures Latest(rows, b, q) == Some(row) <==> IsLatest(rows, b, q, row) {
      if IsLatest(rows, b, q, row) {
        var i :| 0 <= i < |rows| && rows[i] == row && Live(rows, b, q, i);
        var k := LatestAmong(rows, b, q, |rows|).value;
        assert NoLater(rows[i], rows[k]) && NoLater(rows[k], rows[i]);
      }
    }
  }

  /** A row of the asked instrument and kind, observed by market time T and by K, and ingested by K. */
  ghost predicate Known(row: Row, q: Query, marketTime: int, horizon: int) {
    && row.instrument == q.instrument && row.kind == q.kind
    && row.observedAt <= marketTime && row.observedAt <= horizon && row.ingestedAt <= horizon
  }

  /** Row `i + 1` is known and no known row corrects it. */
  ghost predicate Standing(rows: seq<Row>, q: Query, marketTime: int, horizon: int, i: nat) {
    && i < |rows| && Known(rows[i], q, marketTime, horizon)
    && forall j | 0 <= j < |rows| && Known(rows[j], q, marketTime, horizon) :: rows[j].supersedes != i + 1
  }

  /** Nothing when no row stands, else a standing row such that none was observed later, nor, at the same time, has a
      greater key. */
  ghost predicate IsAnswer(rows: seq<Row>, q: Query, marketTime: int, horizon: int, answer: Option<Row>) {
    if answer.None? then forall i | 0 <= i < |rows| :: !Standing(rows, q, marketTime, horizon, i)
    else exists i | 0 <= i < |rows| ::
      && rows[i] == answer.value && Standing(rows, q, marketTime, horizon, i)
      && forall j | 0 <= j < |rows| && Standing(rows, q, marketTime, horizon, j) ::
           rows[j].observedAt < rows[i].observedAt
           || (rows[j].observedAt == rows[i].observedAt && rows[j].key <= rows[i].key)
  }

  lemma StandingIsLive(rows: seq<Row>, q: Query, marketTime: int, horizon: int, i: nat)
    ensures Live(rows, Resolved(marketTime, horizon), q, i) <==> Standing(rows, q, marketTime, horizon, i)
  {
    hide Admits, Resolved;
    forall row ensures Matches(Resolved(marketTime, horizon), q, row) <==> Known(row, q, marketTime, horizon) {
      BoundAdmitsExactly(marketTime, horizon, row);
    }
  }

  /** What a read of a build at market time T and knowledge horizon K answers. */
  lemma AnswerIsNewestKnown(rows: seq<Row>, q: Query, marketTime: int, horizon: int)
    ensures IsAnswer(rows, q, marketTime, horizon, Latest(rows, Resolved(marketTime, horizon), q))
  {
    hide Live, Standing, Resolved;
    var b := Resolved(marketTime, horizon);
    LatestAmongIsLast(rows, b, q, |rows|);
    forall i: nat ensures Live(rows, b, q, i) <==> Standing(rows, q, marketTime, horizon, i) {
      StandingIsLive(rows, q, marketTime, horizon, i);
    }
  }

  /** Two logs show the same rows, under the same numbers. */
  ghost predicate SameVisible(b: ResolvedBound, rows: seq<Row>, other: seq<Row>) {
    forall i: nat ::
      && (i < |rows| && Admits(b, rows[i]) <==> i < |other| && Admits(b, other[i]))
      && (i < |rows| && Admits(b, rows[i]) ==> rows[i] == other[i])
  }

  lemma SameLive(b: ResolvedBound, rows: seq<Row>, other: seq<Row>, q: Query, i: nat)
    ensures SameVisible(b, rows, other) ==>
              (i < |rows| && Live(rows, b, q, i) <==> i < |other| && Live(other, b, q, i))
  {
  }

  /** A query answers from the rows its bound admits; no other row, past or future, has any influence. */
  lemma VisibleRowsDecide(b: ResolvedBound, rows: seq<Row>, other: seq<Row>, q: Query)
    requires SameVisible(b, rows, other)
    ensures Latest(rows, b, q) == Latest(other, b, q)
  {
    hide Live, Admits;
    var n := if |rows| < |other| then |rows| else |other|;
    forall i: nat ensures i < |rows| && Live(rows, b, q, i) <==> i < |other| && Live(other, b, q, i) {
      SameLive(b, rows, other, q, i);
    }
    SameLatest(b, rows, other, q, n);
    NoneLiveAfter(b, rows, q, n, |rows|);
    NoneLiveAfter(b, other, q, n, |other|);
  }

  lemma {:induction false} NoneLiveAfter(b: ResolvedBound, rows: seq<Row>, q: Query, from: nat, to: nat)
    requires from <= to <= |rows| && forall i | from <= i < to :: !Live(rows, b, q, i)
    ensures LatestAmong(rows, b, q, to) == LatestAmong(rows, b, q, from)
  {
    hide Live;
    if from < to {
      NoneLiveAfter(b, rows, q, from, to - 1);
    }
  }

  lemma {:induction false} SameLatest(b: ResolvedBound, rows: seq<Row>, other: seq<Row>, q: Query, n: nat)
    requires n <= |rows| && n <= |other| && SameVisible(b, rows, other)
    ensures LatestAmong(rows, b, q, n) == LatestAmong(other, b, q, n)
    ensures LatestAmong(rows, b, q, n).Some? ==>
              rows[LatestAmong(rows, b, q, n).value] == other[LatestAmong(rows, b, q, n).value]
  {
    hide Superseded, Admits;
    if n > 0 {
      SameLatest(b, rows, other, q, n - 1);
      SameLive(b, rows, other, q, n - 1);
    }
  }

  /** Rows the bound does not admit may be appended without changing what is visible; and only those. */
  lemma AppendedVisibleIff(b: ResolvedBound, rows: seq<Row>, more: seq<Row>)
    ensures SameVisible(b, rows, rows + more) <==> forall i | 0 <= i < |more| :: !Admits(b, more[i])
  {
    var all := rows + more;
    if SameVisible(b, rows, all) {
      forall i | 0 <= i < |more| ensures !Admits(b, more[i]) {
        assert all[|rows| + i] == more[i];
      }
    } else {
      var i: nat :| !(&& (i < |rows| && Admits(b, rows[i]) <==> i < |all| && Admits(b, all[i]))
                      && (i < |rows| && Admits(b, rows[i]) ==> rows[i] == all[i]));
      assert i >= |rows| && all[i] == more[i - |rows|];
    }
  }

  /** What appended rows do to a query's answer. */
  ghost predicate Overtakes(all: seq<Row>, b: ResolvedBound, q: Query, answer: Option<nat>, j: nat) {
    Live(all, b, q, j) && (answer.Some? && answer.value < |all| ==> NoLater(all[answer.value], all[j]))
  }

  ghost predicate Corrects(all: seq<Row>, b: ResolvedBound, q: Query, answer: Option<nat>, j: nat) {
    j < |all| && answer.Some? && Matches(b, q, all[j]) && all[j].supersedes == answer.value + 1
  }

  ghost predicate Moves(all: seq<Row>, b: ResolvedBound, q: Query, answer: Option<nat>, j: nat) {
    Overtakes(all, b, q, answer, j) || Corrects(all, b, q, answer, j)
  }

  /** None of the rows appended to `rows` changes the answer it gave. */
  ghost predicate Unmoved(rows: seq<Row>, all: seq<Row>, b: ResolvedBound, q: Query) {
    forall j | |rows| <= j < |all| :: !Moves(all, b, q, LatestAmong(rows, b, q, |rows|), j)
  }

  lemma PrefixLive(rows: seq<Row>, more: seq<Row>, b: ResolvedBound, q: Query, i: nat)
    requires i < |rows|
    ensures Live(rows + more, b, q, i) ==> Live(rows, b, q, i)
    ensures Live(rows, b, q, i) && (forall r | r in more :: !(Matches(b, q, r) && r.supersedes == i + 1)) ==>
              Live(rows + more, b, q, i)
  {
    hide Matches;
    var all := rows + more;
    assert all[i] == rows[i];
    assert forall j | 0 <= j < |rows| :: all[j] == rows[j];
    assert forall j | |rows| <= j < |all| :: all[j] in more;
  }

  /** An answer that is still live and overtaken by nothing appended is still the answer. */
  lemma AnswerStands(rows: seq<Row>, more: seq<Row>, b: ResolvedBound, q: Query)
    requires Keyed(rows + more)
    requires Unmoved(rows, rows + more, b, q)
    ensures Latest(rows + more, b, q) == Latest(rows, b, q)
  {
    hide Live, Matches, NoLater;
    var all, answer := rows + more, LatestAmong(rows, b, q, |rows|);
    LatestAmongIsLast(rows, b, q, |rows|);
    LatestAmongIsLast(all, b, q, |all|);
    var now := LatestAmong(all, b, q, |all|);
    forall i | 0 <= i < |rows| ensures all[i] == rows[i] && (Live(all, b, q, i) ==> Live(rows, b, q, i)) {
      PrefixLive(rows, more, b, q, i);
    }
    assert now.Some? && now.value >= |rows| ==> !Moves(all, b, q, answer, now.value);
    if answer.Some? {
      forall r | r in more ensures !(Matches(b, q, r) && r.supersedes == answer.value + 1) {
        var k :| 0 <= k < |more| && more[k] == r;
        assert all[|rows| + k] == r && !Moves(all, b, q, answer, |rows| + k);
      }
      PrefixLive(rows, more, b, q, answer.value);
      assert Live(all, b, q, answer.value) && now.Some? && NoLater(all[answer.value], all[now.value]);
      SameSlot(all, b, q, answer.value, now.value);
    }
  }

  /** Two live rows of a query, neither later than the other, are one row. */
  lemma SameSlot(rows: seq<Row>, b: ResolvedBound, q: Query, i: nat, j: nat)
    requires Keyed(rows) && i < |rows| && j < |rows| && Live(rows, b, q, i) && Live(rows, b, q, j)
    ensures NoLater(rows[i], rows[j]) && NoLater(rows[j], rows[i]) ==> i == j
  {
    hide Superseded, Admits;
  }

  lemma AnswerMoves(rows: seq<Row>, more: seq<Row>, b: ResolvedBound, q: Query, j: nat)
    requires Keyed(rows + more) && |rows| <= j < |rows + more|
    requires Moves(rows + more, b, q, LatestAmong(rows, b, q, |rows|), j)
    ensures Latest(rows + more, b, q) != Latest(rows, b, q)
  {
    hide Matches, NoLater, Superseded;
    var all, answer := rows + more, LatestAmong(rows, b, q, |rows|);
    LatestAmongIsLast(all, b, q, |all|);
    if answer.Some? {
      var i, now := answer.value, LatestAmong(all, b, q, |all|);
      assert all[i] == rows[i];
      if now.Some? {
        assert now.value != i by {
          if Corrects(all, b, q, answer, j) {
            CorrectedIsNotLive(all, b, q, i, j);
          } else {
            SameSlotIf(all, b, q, i, j);
          }
        }
      }
    }
  }

  lemma CorrectedIsNotLive(all: seq<Row>, b: ResolvedBound, q: Query, i: nat, j: nat)
    ensures i < |all| && j < |all| && Matches(b, q, all[j]) && all[j].supersedes == i + 1 ==>
              !Live(all, b, q, i)
  {
  }

  /** A row overtaken by a later live one is not the last. */
  lemma SameSlotIf(all: seq<Row>, b: ResolvedBound, q: Query, i: nat, j: nat)
    requires Keyed(all) && i < j < |all| && Live(all, b, q, j) && NoLater(all[i], all[j])
    ensures LatestAmong(all, b, q, |all|) != Some(i)
  {
    hide Superseded, Admits;
    LatestAmongIsLast(all, b, q, |all|);
    if LatestAmong(all, b, q, |all|) == Some(i) {
      SameSlot(all, b, q, i, j);
    }
  }

  /** Exactly which appended rows change a query's answer: a live one no earlier than the answer (any live one, if there
      was none), or one that corrects the answer. */
  lemma AnswerChangesExactly(rows: seq<Row>, more: seq<Row>, b: ResolvedBound, q: Query)
    requires Keyed(rows + more)
    ensures var all := rows + more;
            Latest(all, b, q) == Latest(rows, b, q) <==> Unmoved(rows, all, b, q)
  {
    hide Latest, Moves;
    var all, answer := rows + more, LatestAmong(rows, b, q, |rows|);
    if j :| |rows| <= j < |all| && Moves(all, b, q, answer, j) {
      AnswerMoves(rows, more, b, q, j);
    } else {
      AnswerStands(rows, more, b, q);
    }
  }

  /** A corrected row is what a query sees while its correction is out of sight, never once it is in sight. */
  lemma CorrectionTakesOver(b: ResolvedBound, rows: seq<Row>, q: Query, original: nat, correction: nat)
    requires original < |rows| && correction < |rows| && rows[correction].supersedes == original + 1
    requires Matches(b, q, rows[original]) && Keyed(rows)
    requires forall j | 0 <= j < |rows| && rows[j].supersedes == original + 1 :: j == correction
    requires rows[correction].instrument == q.instrument && rows[correction].kind == q.kind
    ensures Admits(b, rows[correction]) ==> Latest(rows, b, q) != Some(rows[original])
    ensures !Admits(b, rows[correction]) ==>
              && Live(rows, b, q, original)
              && Latest(rows, b, q).Some? && NoLater(rows[original], Latest(rows, b, q).value)
  {
    hide Admits;
    LatestIsNewest(rows, b, q);
    if Latest(rows, b, q) == Some(rows[original]) {
      var i :| 0 <= i < |rows| && rows[i] == rows[original] && Live(rows, b, q, i);
      assert i == original;
    }
  }

  // --------------------------------------------------------------------- writes

  predicate Present(rows: seq<Row>, row: Row) {
    exists r | r in rows :: r.kind == row.kind && r.key == row.key
  }

  /** Insert in order, suppressing what is already present by identity. */
  function Appended(rows: seq<Row>, batch: seq<Row>): seq<Row>
    decreases |batch|
  {
    if batch == [] then rows
    else if Present(rows, batch[0]) then Appended(rows, batch[1..])
    else Appended(rows + [batch[0]], batch[1..])
  }

  lemma InIsPresent(rows: seq<Row>)
    ensures forall r | r in rows :: Present(rows, r)
  {
  }

  lemma StillPresent(rows: seq<Row>, more: seq<Row>, row: Row)
    ensures rows <= more && Present(rows, row) ==> Present(more, row)
  {
  }

  lemma KeyedWithOne(rows: seq<Row>, row: Row)
    ensures Keyed(rows) && !Present(rows, row) ==> Keyed(rows + [row])
  {
    assert forall i | 0 <= i < |rows| :: rows[i] in rows;
  }

  lemma {:induction false} AppendedKeeps(rows: seq<Row>, batch: seq<Row>)
    ensures rows <= Appended(rows, batch)
    ensures Keyed(rows) ==> Keyed(Appended(rows, batch))
    ensures forall r | r in rows || r in batch :: Present(Appended(rows, batch), r)
    ensures forall r | r in Appended(rows, batch) :: r in rows || r in batch
    decreases |batch|
  {
    hide Present, Keyed;
    InIsPresent(rows);
    if batch != [] {
      var first, rest := batch[0], batch[1..];
      var more := if Present(rows, first) then rows else rows + [first];
      assert Appended(rows, batch) == Appended(more, rest);
      hide Appended;
      AppendedKeeps(more, rest);
      KeyedWithOne(rows, first);
      InIsPresent(more);
      StillPresent(more, Appended(more, rest), first);
      assert forall r :: r in batch <==> r == first || r in rest by {
        assert batch == [first] + rest;
      }
    }
  }

  lemma {:induction false} AllPresent(rows: seq<Row>, batch: seq<Row>)
    requires forall r | r in batch :: Present(rows, r)
    ensures Appended(rows, batch) == rows
  {
    hide Present;
    if batch != [] {
      AllPresent(rows, batch[1..]);
    }
  }

  lemma {:induction false} AppendedInTwo(rows: seq<Row>, first: seq<Row>, second: seq<Row>)
    ensures Appended(rows, first + second) == Appended(Appended(rows, first), second)
    decreases |first|
  {
    hide Present;
    if first == [] {
      assert first + second == second;
    } else {
      assert (first + second)[1..] == first[1..] + second;
      AppendedInTwo(if Present(rows, first[0]) then rows else rows + [first[0]], first[1..], second);
    }
  }

  /** No row before it, logged or in the batch, has the kind and key of row `j` of the batch. */
  ghost predicate Unseen(rows: seq<Row>, batch: seq<Row>, j: nat)
    requires j < |batch|
  {
    && (forall r | r in rows :: r.kind != batch[j].kind || r.key != batch[j].key)
    && forall i | 0 <= i < j :: batch[i].kind != batch[j].kind || batch[i].key != batch[j].key
  }

  ghost function UnseenOf(rows: seq<Row>, batch: seq<Row>, n: nat): seq<Row>
    requires n <= |batch|
  {
    if n == 0 then [] else
      UnseenOf(rows, batch, n - 1) + if Unseen(rows, batch, n - 1) then [batch[n - 1]] else []
  }

  lemma PresentIffSeen(rows: seq<Row>, batch: seq<Row>, j: nat)
    requires j < |batch|
    ensures Present(Appended(rows, batch[..j]), batch[j]) <==> !Unseen(rows, batch, j)
  {
    hide Appended;
    AppendedKeeps(rows, batch[..j]);
    if Present(Appended(rows, batch[..j]), batch[j]) {
      var r :| r in Appended(rows, batch[..j]) && r.kind == batch[j].kind && r.key == batch[j].key;
      assert r in rows || r in batch[..j];
    } else {
      NotPresent(Appended(rows, batch[..j]), batch[j], rows, batch[..j]);
    }
  }

  lemma NotPresent(all: seq<Row>, row: Row, rows: seq<Row>, batch: seq<Row>)
    requires !Present(all, row) && forall r | r in rows || r in batch :: Present(all, r)
    ensures forall r | r in rows || r in batch :: r.kind != row.kind || r.key != row.key
  {
    forall r | r in rows || r in batch ensures r.kind != row.kind || r.key != row.key {
      assert Present(all, r);
    }
  }

  /** A batch adds, in order, those of its rows whose kind and key were not seen before, and leaves the rest out. */
  lemma {:induction false} AppendAddsTheUnseen(rows: seq<Row>, batch: seq<Row>, n: nat)
    requires n <= |batch|
    ensures Appended(rows, batch[..n]) == rows + UnseenOf(rows, batch, n)
  {
    hide Present, Unseen;
    if n > 0 {
      var before, last := batch[..n - 1], batch[n - 1];
      AppendAddsTheUnseen(rows, batch, n - 1);
      PresentIffSeen(rows, batch, n - 1);
      assert batch[..n] == before + [last];
      AppendedInTwo(rows, before, [last]);
      AppendOne(Appended(rows, before), last);
    }
  }

  lemma AppendOne(rows: seq<Row>, row: Row)
    ensures Appended(rows, [row]) == if Present(rows, row) then rows else rows + [row]
  {
    hide Present;
    assert [row][1..] == [];
  }

  /** Replaying a batch, or any rows among everything written, adds nothing. */
  lemma ReplayAddsNothing(rows: seq<Row>, batch: seq<Row>, replay: seq<Row>)
    requires forall r | r in replay :: r in rows || r in batch
    ensures Appended(Appended(rows, batch), replay) == Appended(rows, batch)
    ensures Appended(rows, batch + replay) == Appended(rows, batch)
  {
    hide Present, Appended;
    AppendedKeeps(rows, batch);
    AllPresent(Appended(rows, batch), replay);
    AppendedInTwo(rows, batch, replay);
  }

  // ---------------------------------------------------------------------- store

  class ObservationStore {
    var rows: seq<Row>
    var seen: set<(Kind, int)>

    ghost predicate Valid()
      reads this
    {
      && seen == (set r | r in rows :: (r.kind, r.key))
      && Keyed(rows)
    }

    constructor ()
      ensures Valid() && rows == []
    {
      rows, seen := [], {};
    }

    /** Insert a batch; how many rows were new and how many were suppressed. */
    method Append(batch: seq<Row>) returns (inserted: nat, duplicates: nat)
      requires Valid()
      modifies this
      ensures Valid() && rows == Appended(old(rows), batch)
      ensures inserted == |rows| - |old(rows)| && inserted + duplicates == |batch|
    {
      inserted, duplicates := 0, 0;
      for i := 0 to |batch|
        invariant Valid()
        invariant Appended(old(rows), batch) == Appended(rows, batch[i..])
        invariant inserted == |rows| - |old(rows)| && inserted + duplicates == i
      {
        var row := batch[i];
        assert batch[i..][1..] == batch[i + 1..];
        if (row.kind, row.key) in seen {
          duplicates := duplicates + 1;
        } else {
          AppendedKeeps(rows, [row]);
          seen := seen + {(row.kind, row.key)};
          rows := rows + [row];
          inserted := inserted + 1;
        }
      }
    }

    /** The most recent observation for an instrument under a bound, corrections applied. */
    method LatestUnder(b: ResolvedBound, q: Query) returns (r: Option<Row>)
      ensures r == Latest(rows, b, q)
    {
      var best: Option<nat> := None;
      for i := 0 to |rows|
        invariant best == LatestAmong(rows, b, q, i)
      {
        if Live(rows, b, q, i) && (best.None? || NoLater(rows[best.value], rows[i])) {
          best := Some(i);
        }
      }
      return match best case None => None case Some(i) => Some(rows[i]);
    }
  }

}
