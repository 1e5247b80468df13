// The backtest runner: intents are decided, gated, scheduled on the timeline,
// executed when due, and the drawdown is measured after each step's fills.

module Backtest {
  import opened Wrappers
  import opened Costs
  import opened Fills
  import opened BookKeeping
  import opened Drawdowns

  datatype AccountView = AccountView(cash: real, positions: seq<(int, int)>)

  type Simulator = (TradeIntent, MarketState) -> Result<FillOutcome, Error>

  /** One run's inputs: the timeline, the states at each step (one per underlying, sorted), the fill
      simulation and its latency, the risk gate and the strategy. */
  datatype Config = Config(
    times: seq<int>,
    states: seq<seq<MarketState>>,
    latency: int,
    simulate: Simulator,
    approves: TradeIntent -> bool,
    decide: (nat, nat, AccountView) -> seq<TradeIntent>)
  {
    ghost predicate Valid() {
      |states| == |times| && AnswersIntents(simulate)
    }
  }

  function IntentOf(outcome: FillOutcome): string {
    match outcome
    case Filled(fill) => fill.intentId
    case Rejected(id, _) => id
  }

  ghost predicate AnswersIntents(simulate: Simulator) {
    forall intent, state ::
      simulate(intent, state).Success? ==> IntentOf(simulate(intent, state).value) == intent.intentId
  }

  /** The simulation of a fill model. */
  function SimulatorOf(model: FillModel, draw: string -> real): Simulator {
    (intent, state) => SimulateFill(intent, state, model, draw)
  }

  lemma SimulatorAnswers(model: FillModel, draw: string -> real)
    ensures AnswersIntents(SimulatorOf(model, draw))
  {
  }

  // --------------------------------------------------------------- scheduling

  /** The first step from `start` on at or after `target`. */
  function FirstFrom(times: seq<int>, target: int, start: nat): Option<nat>
    requires start <= |times|
    decreases |times| - start
  {
    if start == |times| then None
    else if times[start] >= target then Some(start)
    else FirstFrom(times, target, start + 1)
  }

  function Due(c: Config, intent: TradeIntent): Option<nat> {
    FirstFrom(c.times, intent.decisionTime + c.latency, 0)
  }

  lemma {:induction false} FirstFromIsFirst(times: seq<int>, target: int, start: nat)
    requires start <= |times|
    ensures var due := FirstFrom(times, target, start);
            && (due.None? <==> forall i | start <= i < |times| :: times[i] < target)
            && (due.Some? ==>
                  && start <= due.value < |times| && times[due.value] >= target
                  && forall i | start <= i < due.value :: times[i] < target)
    decreases |times| - start
  {
    if start < |times| && times[start] < target {
      FirstFromIsFirst(times, target, start + 1);
    }
  }

  /** An intent is due at the first step not before its decision plus the latency, and never if there is none. */
  lemma DueExactly(c: Config, intent: TradeIntent)
    ensures var due, earliest := Due(c, intent), intent.decisionTime + c.latency;
            && (due.None? <==> forall i | 0 <= i < |c.times| :: c.times[i] < earliest)
            && (due.Some? ==> due.value < |c.times| && c.times[due.value] >= earliest
                              && forall i | 0 <= i < due.value :: c.times[i] < earliest)
  {
    FirstFromIsFirst(c.times, intent.decisionTime + c.latency, 0);
  }

  method ExecutionStepIndex(times: seq<int>, decidedAt: int, latency: int) returns (due: Option<nat>)
    ensures due == FirstFrom(times, decidedAt + latency, 0)
  {
    var target := decidedAt + latency;
    for index := 0 to |times|
      invariant FirstFrom(times, target, 0) == FirstFrom(times, target, index)
    {
      if times[index] >= target {
        return Some(index);
      }
    }
    return None;
  }

  /** An intent that passed the risk gate at `step` and was scheduled for step `due`. */
  datatype Approval = Approval(step: nat, intent: TradeIntent, due: nat)

  type Pending = map<nat, seq<TradeIntent>>

  function FiledAt(pending: Pending, d: nat): seq<TradeIntent> {
    if d in pending then pending[d] else []
  }

  /** The scheduler's books, with two records the runner does not keep: every intent
      the strategy returned (`offered`) and every approval that was scheduled (`log`). */
  datatype Queue = Queue(
    pending: Pending,
    generated: nat,
    riskRejected: nat,
    expired: nat,
    offered: seq<TradeIntent>,
    log: seq<Approval>)

  const EMPTY_QUEUE := Queue(map[], 0, 0, 0, [], [])

  /** Gate and schedule one intent. */
  function ScheduleOne(c: Config, step: nat, q: Queue, intent: TradeIntent): Queue {
    var counted := q.(generated := q.generated + 1, offered := q.offered + [intent]);
    if !c.approves(intent) then counted.(riskRejected := q.riskRejected + 1) else
      match Due(c, intent)
      case None => counted.(expired := q.expired + 1)
      case Some(due) =>
        counted.(pending := q.pending[due := FiledAt(q.pending, due) + [intent]],
                 log := q.log + [Approval(step, intent, due)])
  }

  function Schedule(c: Config, step: nat, q: Queue, intents: seq<TradeIntent>): Queue {
    if intents == [] then q
    else ScheduleOne(c, step, Schedule(c, step, q, intents[..|intents| - 1]), intents[|intents| - 1])
  }

  function ViewOf(book: Book): AccountView {
    var open := OpenPositions(book.positions);
    AccountView(book.cash, seq(|open|, i requires 0 <= i < |open| => (open[i].instrumentId, open[i].quantity)))
  }

  /** Ask the strategy about the first `count` underlyings, and schedule what it returns. */
  function Decide(c: Config, step: nat, view: AccountView, q: Queue, count: nat): Queue {
    if count == 0 then q else
      Schedule(c, step, Decide(c, step, view, q, count - 1), c.decide(step, count - 1, view))
  }

  // ---------------------------------------------------------------- execution

  /** Only "not in this state" is worth asking another state about. */
  function TryStates(c: Config, intent: TradeIntent, states: seq<MarketState>): Result<FillOutcome, Error> {
    if states == [] then Success(Rejected(intent.intentId, NoPriceAvailable)) else
      var outcome := c.simulate(intent, states[0]);
      if outcome == Success(Rejected(intent.intentId, NoPriceAvailable))
      then TryStates(c, intent, states[1..])
      else outcome
  }

  function BookAfter(book: Book, outcome: FillOutcome): Book {
    if outcome.Filled? then ApplyFill(book, outcome.fill) else book
  }

  /** Execute the intents in order, each against the book the previous ones left. */
  function Execute(c: Config, states: seq<MarketState>, book: Book, intents: seq<TradeIntent>)
    : Result<(Book, seq<FillOutcome>), Error>
  {
    if intents == [] then Success((book, [])) else
      var before := Execute(c, states, book, intents[..|intents| - 1]);
      if before.Failure? then before else
        var outcome := TryStates(c, intents[|intents| - 1], states);
        if outcome.Failure? then Failure(outcome.error) else
          Success((BookAfter(before.value.0, outcome.value), before.value.1 + [outcome.value]))
  }

  /** Last-traded prices, a later leg overriding an earlier one. */
  function LegMarks(legs: seq<OptionLeg>): map<int, real> {
    if legs == [] then map[] else
      var before, last := LegMarks(legs[..|legs| - 1]), legs[|legs| - 1];
      if last.ltp.Some? then before[last.instrumentId := last.ltp.value] else before
  }

  function Marks(states: seq<MarketState>): map<int, real> {
    if states == [] then map[] else Marks(states[..|states| - 1]) + LegMarks(states[|states| - 1])
  }

  // ------------------------------------------------------------------ the run

  /** A run in progress. `executed` lists, by position in the log, what has run;
      `books` the book after each step's fills. */
  datatype Trace = Trace(
    book: Book,
    queue: Queue,
    outcomes: seq<FillOutcome>,
    executed: seq<nat>,
    books: seq<Book>)

  /** Positions in the log of the approvals due at `d` and decided before it. */
  function InTime(log: seq<Approval>, d: nat): seq<nat> {
    if log == [] then [] else
      var n := |log| - 1;
      InTime(log[..n], d) + if log[n].due == d && log[n].step < d then [n] else []
  }

  /** One step: execute what is due, measure, then decide. */
  function Step(c: Config, t: Trace, index: nat): Result<Trace, Error>
    requires c.Valid() && index < |c.times|
  {
    var states := c.states[index];
    var run := Execute(c, states, t.book, FiledAt(t.queue.pending, index));
    if run.Failure? then Failure(run.error) else
      var book := run.value.0;
      var popped := t.queue.(pending := t.queue.pending - {index});
      Success(Trace(
        book,
        Decide(c, index, ViewOf(book), popped, |states|),
        t.outcomes + run.value.1,
        t.executed + InTime(t.queue.log, index),
        t.books + [book]))
  }

  function Equity(c: Config, book: Book, index: nat): real
    requires index < |c.states|
  {
    SnapshotOf(book, Marks(c.states[index])).Equity()
  }

  /** The equity readings: each step's book at that step's marks. */
  function Readings(c: Config, start: nat, books: seq<Book>): seq<real>
    requires books != [] ==> start + |books| <= |c.states|
  {
    if books == [] then [] else
      Readings(c, start, books[..|books| - 1]) + [Equity(c, books[|books| - 1], start + |books| - 1)]
  }

  function Started(book: Book): Trace {
    Trace(book, EMPTY_QUEUE, [], [], [])
  }

  /** The run over steps `start` to `end - 1`. */
  function RunTo(c: Config, book: Book, start: nat, end: nat): Result<Trace, Error>
    requires c.Valid() && end <= |c.times|
  {
    if end <= start then Success(Started(book)) else
      var before := RunTo(c, book, start, end - 1);
      if before.Failure? then before else Step(c, before.value, end - 1)
  }

  // ------------------------------------------------- what is where, at a point

  predicate Files(a: Approval, d: nat, now: nat) {
    a.due == d && !(a.step < d < now)
  }

  /** The intents filed under `d` when step `now` begins: all of those due at `d` until that step
      has been reached, afterwards only those decided too late for it. */
  function Waiting(log: seq<Approval>, d: nat, now: nat): seq<TradeIntent> {
    if log == [] then [] else
      var last := log[|log| - 1];
      Waiting(log[..|log| - 1], d, now) + if Files(last, d, now) then [last.intent] else []
  }

  /** What has run before step `now`: at each step, the approvals due there and decided earlier. */
  function Ran(log: seq<Approval>, start: nat, now: nat): seq<nat> {
    if now <= start then [] else Ran(log, start, now - 1) + InTime(log, now - 1)
  }

  lemma {:induction false} InTimePositions(log: seq<Approval>, d: nat)
    ensures forall i :: i in InTime(log, d) <==> 0 <= i < |log| && log[i].due == d && log[i].step < d
    ensures Rising(InTime(log, d))
  {
    if log != [] {
      var n := |log| - 1;
      InTimePositions(log[..n], d);
      var before := InTime(log[..n], d);
      forall j | 0 <= j < |before| ensures before[j] < n {
        assert before[j] in before;
      }
    }
  }

  ghost predicate Rising(s: seq<nat>) {
    forall j, k | 0 <= j < k < |s| :: s[j] < s[k]
  }

  /** The number of intents still filed. */
  ghost function Filed(pending: Pending): nat {
    if pending == map[] then 0 else
      var d :| d in pending;
      |pending[d]| + Filed(pending - {d})
  }

  lemma {:induction false} FiledRemove(pending: Pending, d: nat)
    requires d in pending
    ensures Filed(pending) == |pending[d]| + Filed(pending - {d})
    decreases |pending|
  {
    var e :| e in pending && Filed(pending) == |pending[e]| + Filed(pending - {e});
    if e != d {
      FiledRemove(pending - {e}, d);
      FiledRemove(pending - {d}, e);
      assert pending - {e} - {d} == pending - {d} - {e};
    }
  }

  lemma FiledPop(pending: Pending, d: nat)
    ensures Filed(pending) == |FiledAt(pending, d)| + Filed(pending - {d})
  {
    if d in pending {
      FiledRemove(pending, d);
    } else {
      assert pending - {d} == pending;
    }
  }

  lemma FiledAppend(pending: Pending, d: nat, intent: TradeIntent)
    ensures Filed(pending[d := FiledAt(pending, d) + [intent]]) == Filed(pending) + 1
  {
    var after := pending[d := FiledAt(pending, d) + [intent]];
    FiledPop(after, d);
    FiledPop(pending, d);
    assert after - {d} == pending - {d};
  }

  /** How many of the intents the gate refused. */
  function Refused(c: Config, offered: seq<TradeIntent>): nat {
    if offered == [] then 0 else
      Refused(c, offered[..|offered| - 1]) + if c.approves(offered[|offered| - 1]) then 0 else 1
  }

  /** How many passed the gate with no step left to run at. */
  function TooLate(c: Config, offered: seq<TradeIntent>): nat {
    if offered == [] then 0 else
      var last := offered[|offered| - 1];
      TooLate(c, offered[..|offered| - 1]) + if c.approves(last) && Due(c, last).None? then 1 else 0
  }

  /** Those that passed the gate and have a step to run at, in order. */
  function Accepted(c: Config, offered: seq<TradeIntent>): seq<TradeIntent> {
    if offered == [] then [] else
      var last := offered[|offered| - 1];
      Accepted(c, offered[..|offered| - 1]) + if c.approves(last) && Due(c, last).Some? then [last] else []
  }

  ghost predicate DecidedAt(c: Config, step: nat, intent: TradeIntent) {
    exists underlying: nat, view :: intent in c.decide(step, underlying, view)
  }

  /** An approval is filed for the first step late enough, under the step it was decided at. */
  ghost predicate ApprovalOk(c: Config, a: Approval, start: nat, now: nat) {
    start <= a.step < now && Due(c, a.intent) == Some(a.due) && DecidedAt(c, a.step, a.intent)
  }

  /** The log is exactly the accepted intents, in order. */
  ghost predicate LogOk(c: Config, q: Queue, start: nat, now: nat) {
    && (forall a | a in q.log :: ApprovalOk(c, a, start, now))
    && |q.log| == |Accepted(c, q.offered)|
    && forall i | 0 <= i < |q.log| :: q.log[i].intent == Accepted(c, q.offered)[i]
  }

  /** The scheduler's books when step `now` begins. */
  ghost predicate QueueOk(c: Config, q: Queue, start: nat, now: nat) {
    && LogOk(c, q, start, now)
    && q.generated == |q.offered| == q.riskRejected + q.expired + |q.log|
    && q.riskRejected == Refused(c, q.offered)
    && q.expired == TooLate(c, q.offered)
    && forall d: nat :: FiledAt(q.pending, d) == Waiting(q.log, d, now)
  }

  /** `after` adds approvals of this step to `before`, each of them filed. */
  ghost predicate Grows(before: Queue, after: Queue, step: nat) {
    && before.log <= after.log
    && (forall i | |before.log| <= i < |after.log| :: after.log[i].step == step)
    && Filed(after.pending) + |before.log| == Filed(before.pending) + |after.log|
  }

  lemma OfferOne(c: Config, offered: seq<TradeIntent>, x: TradeIntent)
    ensures Refused(c, offered + [x]) == Refused(c, offered) + if c.approves(x) then 0 else 1
    ensures TooLate(c, offered + [x]) == TooLate(c, offered) + if c.approves(x) && Due(c, x).None? then 1 else 0
    ensures Accepted(c, offered + [x]) == Accepted(c, offered) + if c.approves(x) && Due(c, x).Some? then [x] else []
  {
    hide Due;
    assert (offered + [x])[..|offered|] == offered;
  }

  /** Filing an approval of the current step, whether in time or too late, keeps the books. */
  lemma ScheduleOneOk(c: Config, q: Queue, intent: TradeIntent, start: nat, step: nat)
    requires QueueOk(c, q, start, step + 1) && start <= step && DecidedAt(c, step, intent)
    ensures QueueOk(c, ScheduleOne(c, step, q, intent), start, step + 1)
  {
    hide Due, DecidedAt, Waiting, Refused, TooLate, Accepted, LogOk;
    OfferOne(c, q.offered, intent);
    if c.approves(intent) && Due(c, intent).Some? {
      var a := Approval(step, intent, Due(c, intent).value);
      FilingOk(q, a, step);
      AcceptOk(c, q, a, start, step);
    } else {
      PassOverOk(c, q, intent, start, step);
    }
  }

  lemma PassOverOk(c: Config, q: Queue, intent: TradeIntent, start: nat, step: nat)
    requires LogOk(c, q, start, step + 1) && !(c.approves(intent) && Due(c, intent).Some?)
    ensures forall after: Queue | after.log == q.log && after.offered == q.offered + [intent] ::
              LogOk(c, after, start, step + 1)
  {
    hide Due, Accepted, ApprovalOk;
    OfferOne(c, q.offered, intent);
  }

  lemma ScheduleOneGrows(c: Config, q: Queue, intent: TradeIntent, step: nat)
    ensures Grows(q, ScheduleOne(c, step, q, intent), step)
  {
    hide FirstFrom, Filed;
    if c.approves(intent) && Due(c, intent).Some? {
      FiledAppend(q.pending, Due(c, intent).value, intent);
    }
  }

  lemma AcceptOk(c: Config, q: Queue, a: Approval, start: nat, step: nat)
    requires LogOk(c, q, start, step + 1) && ApprovalOk(c, a, start, step + 1) && c.approves(a.intent)
    ensures forall after: Queue | after.log == q.log + [a] && after.offered == q.offered + [a.intent] ::
              LogOk(c, after, start, step + 1)
  {
    hide Due, Accepted, DecidedAt;
    OfferOne(c, q.offered, a.intent);
  }

  lemma FilingOk(q: Queue, a: Approval, step: nat)
    requires a.step == step
    requires forall d: nat :: FiledAt(q.pending, d) == Waiting(q.log, d, step + 1)
    ensures var pending := q.pending[a.due := FiledAt(q.pending, a.due) + [a.intent]];
            forall d: nat :: FiledAt(pending, d) == Waiting(q.log + [a], d, step + 1)
  {
    var log, pending := q.log + [a], q.pending[a.due := FiledAt(q.pending, a.due) + [a.intent]];
    assert log[..|q.log|] == q.log;
    forall d: nat ensures FiledAt(pending, d) == Waiting(log, d, step + 1) {
      assert FiledAt(q.pending, d) == Waiting(q.log, d, step + 1);
    }
  }

  lemma {:induction false} ScheduleOk(c: Config, q: Queue, intents: seq<TradeIntent>, start: nat, step: nat)
    requires QueueOk(c, q, start, step + 1) && start <= step
    requires forall intent | intent in intents :: DecidedAt(c, step, intent)
    ensures QueueOk(c, Schedule(c, step, q, intents), start, step + 1)
    ensures Grows(q, Schedule(c, step, q, intents), step)
  {
    if intents != [] {
      var before := intents[..|intents| - 1];
      ScheduleOk(c, q, before, start, step);
      ScheduleOneOk(c, Schedule(c, step, q, before), intents[|intents| - 1], start, step);
      ScheduleOneGrows(c, Schedule(c, step, q, before), intents[|intents| - 1], step);
    }
  }

  lemma {:induction false} DecideOk(c: Config, view: AccountView, q: Queue, count: nat, start: nat, step: nat)
    requires QueueOk(c, q, start, step + 1) && start <= step
    ensures QueueOk(c, Decide(c, step, view, q, count), start, step + 1)
    ensures Grows(q, Decide(c, step, view, q, count), step)
  {
    if count > 0 {
      DecideOk(c, view, q, count - 1, start, step);
      ScheduleOk(c, Decide(c, step, view, q, count - 1), c.decide(step, count - 1, view), start, step);
    }
  }

  /** Everything filed under a step, when it is reached, was decided in time. */
  lemma {:induction false} WaitingAtPop(log: seq<Approval>, d: nat, now: nat)
    requires forall a | a in log :: a.step < now
    ensures d == now ==> Waiting(log, d, now + 1) == []
    ensures d != now ==> Waiting(log, d, now) == Waiting(log, d, now + 1)
    ensures d == now ==>
              && |Waiting(log, d, now)| == |InTime(log, d)|
              && forall j | 0 <= j < |InTime(log, d)| ::
                   InTime(log, d)[j] < |log| && Waiting(log, d, now)[j] == log[InTime(log, d)[j]].intent
  {
    if log != [] {
      WaitingAtPop(log[..|log| - 1], d, now);
    }
  }

  lemma PopOk(c: Config, q: Queue, start: nat, now: nat)
    requires QueueOk(c, q, start, now)
    ensures QueueOk(c, q.(pending := q.pending - {now}), start, now + 1)
    ensures var due := InTime(q.log, now);
            && |FiledAt(q.pending, now)| == |due|
            && forall j | 0 <= j < |due| :: due[j] < |q.log| && FiledAt(q.pending, now)[j] == q.log[due[j]].intent
  {
    var after := q.(pending := q.pending - {now});
    WaitingAtPop(q.log, now, now);
    forall d: nat ensures FiledAt(after.pending, d) == Waiting(q.log, d, now + 1) {
      WaitingAtPop(q.log, d, now);
      assert FiledAt(q.pending, d) == Waiting(q.log, d, now);
    }
  }

  // -------------------------------------------------------------- whole runs

  lemma {:induction false} TryStatesAnswersTheIntent(c: Config, intent: TradeIntent, states: seq<MarketState>)
    requires AnswersIntents(c.simulate)
    ensures var r := TryStates(c, intent, states);
            r.Success? ==> IntentOf(r.value) == intent.intentId
  {
    if states != [] {
      TryStatesAnswersTheIntent(c, intent, states[1..]);
    }
  }

  /** One outcome per intent, in order, on a book that stays balanced. */
  lemma {:induction false} ExecuteOk(c: Config, states: seq<MarketState>, book: Book, intents: seq<TradeIntent>)
    requires book.Balanced() && book.Valid() && AnswersIntents(c.simulate)
    ensures var r := Execute(c, states, book, intents);
            r.Success? ==>
              && |r.value.1| == |intents|
              && (forall k | 0 <= k < |intents| ::
                    && IntentOf(r.value.1[k]) == intents[k].intentId
                    && TryStates(c, intents[k], states) == Success(r.value.1[k]))
              && r.value.0.Balanced() && r.value.0.Valid()
              && r.value.0.openingCash == book.openingCash
  {
    if intents != [] {
      var before := intents[..|intents| - 1];
      ExecuteOk(c, states, book, before);
      TryStatesAnswersTheIntent(c, intents[|intents| - 1], states);
      var r := Execute(c, states, book, intents);
      if r.Success? {
        var done := Execute(c, states, book, before).value;
        var last := r.value.1[|before|];
        if last.Filled? {
          ApplyFillBalanced(done.0, last.fill);
        }
      }
    }
  }

  /** Each outcome answers the approval at the matching position. */
  ghost predicate Aligned(log: seq<Approval>, positions: seq<nat>, outcomes: seq<FillOutcome>) {
    && |outcomes| == |positions|
    && forall k | 0 <= k < |positions| ::
         positions[k] < |log| && IntentOf(outcomes[k]) == log[positions[k]].intent.intentId
  }

  /** What the runner maintains: what ran is exactly what was due and decided in time. */
  ghost predicate TraceOk(c: Config, book: Book, t: Trace, start: nat, now: nat) {
    && QueueOk(c, t.queue, start, now)
    && t.executed == Ran(t.queue.log, start, now)
    && Aligned(t.queue.log, t.executed, t.outcomes)
    && |t.queue.log| == |t.executed| + Filed(t.queue.pending)
    && |t.books| == (if now > start then now - start else 0)
    && t.book.Balanced() && t.book.Valid() && t.book.openingCash == book.openingCash
  }

  lemma {:induction false} InTimeStable(log: seq<Approval>, longer: seq<Approval>, d: nat)
    requires log <= longer
    requires forall i | |log| <= i < |longer| :: longer[i].step >= d
    ensures InTime(longer, d) == InTime(log, d)
    decreases |longer|
  {
    if |longer| > |log| {
      InTimeStable(log, longer[..|longer| - 1], d);
    } else {
      assert longer == log;
    }
  }

  lemma {:induction false} RanStable(log: seq<Approval>, longer: seq<Approval>, start: nat, now: nat)
    requires log <= longer
    requires forall i | |log| <= i < |longer| :: longer[i].step + 1 >= now
    ensures Ran(longer, start, now) == Ran(log, start, now)
  {
    hide InTime;
    if now > start {
      RanStable(log, longer, start, now - 1);
      InTimeStable(log, longer, now - 1);
      assert Ran(longer, start, now) == Ran(longer, start, now - 1) + InTime(longer, now - 1);
      assert Ran(log, start, now) == Ran(log, start, now - 1) + InTime(log, now - 1);
    }
  }

  /** The scheduler's part of one step: pop what is due, then file what is decided. */
  lemma QueueStep(c: Config, q: Queue, view: AccountView, count: nat, start: nat, index: nat)
    requires QueueOk(c, q, start, index) && start <= index
    ensures var after := Decide(c, index, view, q.(pending := q.pending - {index}), count);
            && QueueOk(c, after, start, index + 1)
            && q.log <= after.log
            && Filed(after.pending) + |FiledAt(q.pending, index)| + |q.log| == Filed(q.pending) + |after.log|
            && Ran(after.log, start, index + 1) == Ran(q.log, start, index) + InTime(q.log, index)
  {
    var popped := q.(pending := q.pending - {index});
    PopOk(c, q, start, index);
    FiledPop(q.pending, index);
    DecideOk(c, view, popped, count, start, index);
    RanStable(q.log, Decide(c, index, view, popped, count).log, start, index + 1);
  }

  lemma StepOk(c: Config, book: Book, t: Trace, start: nat, index: nat)
    requires c.Valid() && start <= index < |c.times|
    requires TraceOk(c, book, t, start, index)
    ensures var r := Step(c, t, index);
            r.Success? ==> TraceOk(c, book, r.value, start, index + 1)
  {
    hide QueueOk, Ran, Filed, Execute, Decide, InTime, Book.Balanced, Book.Valid, ViewOf, TryStates;
    var r, states, due := Step(c, t, index), c.states[index], FiledAt(t.queue.pending, index);
    if r.Success? {
      ExecuteOk(c, states, t.book, due);
      QueueStep(c, t.queue, ViewOf(r.value.book), |states|, start, index);
      DueAligned(c, t.queue, states, t.book, start, index);
    }
  }

  /** Each outcome is the simulator's answer, on these states, to the approval at the matching position. */
  ghost predicate Simulated(c: Config, states: seq<MarketState>, log: seq<Approval>, positions: seq<nat>, outcomes: seq<FillOutcome>) {
    && |outcomes| == |positions|
    && forall k | 0 <= k < |positions| ::
         positions[k] < |log| && TryStates(c, log[positions[k]].intent, states) == Success(outcomes[k])
  }

  /** What was popped is answered by what was executed. */
  lemma DueAligned(c: Config, q: Queue, states: seq<MarketState>, book: Book, start: nat, index: nat)
    requires QueueOk(c, q, start, index) && book.Balanced() && book.Valid() && AnswersIntents(c.simulate)
    requires Execute(c, states, book, FiledAt(q.pending, index)).Success?
    ensures Aligned(q.log, InTime(q.log, index), Execute(c, states, book, FiledAt(q.pending, index)).value.1)
    ensures Simulated(c, states, q.log, InTime(q.log, index), Execute(c, states, book, FiledAt(q.pending, index)).value.1)
  {
    PopOk(c, q, start, index);
    ExecuteOk(c, states, book, FiledAt(q.pending, index));
  }

  lemma {:induction false} RunOk(c: Config, book: Book, start: nat, end: nat)
    requires c.Valid() && end <= |c.times|
    requires book.Balanced() && book.Valid()
    ensures var r := RunTo(c, book, start, end);
            r.Success? ==> TraceOk(c, book, r.value, start, end)
  {
    hide Step, TraceOk, Book.Balanced, Book.Valid;
    if end <= start {
      StartedOk(c, book, start, end);
    } else {
      RunOk(c, book, start, end - 1);
      var before := RunTo(c, book, start, end - 1);
      if before.Success? {
        StepOk(c, book, before.value, start, end - 1);
      }
    }
  }

  lemma StartedOk(c: Config, book: Book, start: nat, end: nat)
    requires end <= start && book.Balanced() && book.Valid()
    ensures TraceOk(c, book, Started(book), start, end)
  {
  }

  /** At every point of a run each generated intent is in exactly one place: refused by the gate,
      expired, answered by an outcome, or still filed. */
  lemma IntentsConserved(c: Config, book: Book, start: nat, end: nat)
    requires c.Valid() && end <= |c.times| && book.Balanced() && book.Valid()
    ensures var r := RunTo(c, book, start, end);
            r.Success? ==>
              var q := r.value.queue;
              && q.generated == |q.offered|
              && q.riskRejected == Refused(c, q.offered)
              && q.expired == TooLate(c, q.offered)
              && q.generated == q.riskRejected + q.expired + |r.value.outcomes| + Filed(q.pending)
  {
    RunOk(c, book, start, end);
  }

  ghost predicate NoRepeats(s: seq<nat>) {
    forall j, k | 0 <= j < k < |s| :: s[j] != s[k]
  }

  lemma DistinctConcat(s: seq<nat>, t: seq<nat>)
    requires NoRepeats(s) && NoRepeats(t) && forall i | i in s :: i !in t
    ensures NoRepeats(s + t)
  {
    forall j, k | 0 <= j < k < |s + t| ensures (s + t)[j] != (s + t)[k] {
      if j < |s| <= k {
        assert s[j] in s && t[k - |s|] in t;
      }
    }
  }

  lemma {:induction false} RanExactly(log: seq<Approval>, start: nat, now: nat)
    ensures forall i :: i in Ran(log, start, now) <==>
                          0 <= i < |log| && start <= log[i].due < now && log[i].step < log[i].due
    ensures NoRepeats(Ran(log, start, now))
  {
    hide InTime, Rising, NoRepeats;
    if now > start {
      RanExactly(log, start, now - 1);
      InTimePositions(log, now - 1);
      DistinctConcat(Ran(log, start, now - 1), InTime(log, now - 1));
    } else {
      NothingRepeats();
    }
  }

  lemma NothingRepeats()
    ensures NoRepeats([])
  {
  }

  lemma DueWithinTimeline(c: Config, a: Approval, start: nat, now: nat)
    requires ApprovalOk(c, a, start, now)
    ensures start <= a.step && a.due < |c.times|
  {
    FirstFromIsFirst(c.times, a.intent.decisionTime + c.latency, 0);
  }

  lemma ApprovalAt(c: Config, book: Book, t: Trace, start: nat, now: nat, i: nat)
    requires TraceOk(c, book, t, start, now) && i < |t.queue.log|
    ensures ApprovalOk(c, t.queue.log[i], start, now)
  {
    hide Ran, Filed, Waiting, Aligned;
    assert t.queue.log[i] in t.queue.log;
  }

  lemma TraceRunsIffDueLater(c: Config, book: Book, t: Trace, start: nat)
    requires TraceOk(c, book, t, start, |c.times|)
    ensures forall i :: i in t.executed <==>
                          0 <= i < |t.queue.log| && t.queue.log[i].step < t.queue.log[i].due
    ensures NoRepeats(t.executed)
  {
    hide Filed, QueueOk, Aligned, Ran;
    RanExactly(t.queue.log, start, |c.times|);
    forall i | 0 <= i < |t.queue.log| ensures start <= t.queue.log[i].step && t.queue.log[i].due < |c.times| {
      ApprovalAt(c, book, t, start, |c.times|, i);
      DueWithinTimeline(c, t.queue.log[i], start, |c.times|);
    }
  }

  /** Over a whole run, an approval runs exactly when its due step comes after the step it was decided at;
      it then runs once, and its outcome answers it. No other intent runs. */
  lemma RunsIffDueLater(c: Config, book: Book, start: nat)
    requires c.Valid() && book.Balanced() && book.Valid()
    ensures var r := RunTo(c, book, start, |c.times|);
            r.Success? ==>
              var t := r.value;
              && (forall i :: i in t.executed <==>
                    0 <= i < |t.queue.log| && t.queue.log[i].step < t.queue.log[i].due)
              && (forall j, k | 0 <= j < k < |t.executed| :: t.executed[j] != t.executed[k])
              && Aligned(t.queue.log, t.executed, t.outcomes)
  {
    var r := RunTo(c, book, start, |c.times|);
    RunOk(c, book, start, |c.times|);
    if r.Success? {
      TraceRunsIffDueLater(c, book, r.value, start);
    }
  }

  /** What one step executes, against the log it leaves. */
  lemma StepAnswers(c: Config, book: Book, t: Trace, start: nat, index: nat)
    requires c.Valid() && start <= index < |c.times| && TraceOk(c, book, t, start, index)
    requires Step(c, t, index).Success?
    ensures var after := Step(c, t, index).value;
            && t.outcomes <= after.outcomes && t.executed <= after.executed
            && after.executed[|t.executed|..] == InTime(after.queue.log, index)
            && Simulated(c, c.states[index], after.queue.log, InTime(after.queue.log, index), after.outcomes[|t.outcomes|..])
  {
    hide Execute, Filed, Ran, LogOk, Decide, TryStates, InTime;
    var after, popped := Step(c, t, index).value, t.queue.(pending := t.queue.pending - {index});
    PopOk(c, t.queue, start, index);
    DecideOk(c, ViewOf(after.book), popped, |c.states[index]|, start, index);
    InTimeStable(t.queue.log, after.queue.log, index);
    DueAligned(c, t.queue, c.states[index], t.book, start, index);
  }

  /** The outcomes of one step answer, in order of approval, exactly what was due there; each is the simulator's answer
      on that step's states. */
  lemma StepAnswersWhatIsDue(c: Config, book: Book, start: nat, index: nat)
    requires c.Valid() && start <= index < |c.times| && book.Balanced() && book.Valid()
    requires RunTo(c, book, start, index + 1).Success?
    ensures var before, after := RunTo(c, book, start, index).value, RunTo(c, book, start, index + 1).value;
            && before.outcomes <= after.outcomes
            && Aligned(after.queue.log, after.executed, after.outcomes)
            && |before.outcomes| <= |after.outcomes|
            && after.executed[|before.outcomes|..] == InTime(after.queue.log, index)
            && Simulated(c, c.states[index], after.queue.log, InTime(after.queue.log, index), after.outcomes[|before.outcomes|..])
  {
    hide Simulated;
    RunOk(c, book, start, index);
    StepAnswers(c, book, RunTo(c, book, start, index).value, start, index);
    StepOk(c, book, RunTo(c, book, start, index).value, start, index);
  }

  // ------------------------------------------------- what the strategy is asked

  /** The account of a book: its cash, and the instrument and quantity of each open position, by instrument. */
  ghost predicate Sees(view: AccountView, book: Book) {
    && view.cash == book.cash
    && (forall k, q :: (k, q) in view.positions <==>
          q != 0 && k in book.positions && book.positions[k].quantity == q)
    && forall i, j | 0 <= i < j < |view.positions| :: view.positions[i].0 < view.positions[j].0
  }

  lemma AccountSeen(book: Book)
    requires book.Valid()
    ensures Sees(ViewOf(book), book)
  {
    hide OpenPositions;
    var open, view := OpenPositions(book.positions), ViewOf(book);
    OpenPositionsExactly(book);
    forall k, q ensures (k, q) in view.positions <==>
                          q != 0 && k in book.positions && book.positions[k].quantity == q
    {
      if k in book.positions && book.positions[k].quantity == q != 0 {
        var i :| 0 <= i < |open| && open[i] == book.positions[k];
        assert view.positions[i] == (k, q);
      }
      if (k, q) in view.positions {
        var i :| 0 <= i < |open| && view.positions[i] == (k, q);
        assert open[i] in open;
      }
    }
  }

  /** The strategy's answers about the first `count` underlyings of a step, one after the other. */
  ghost function Answers(c: Config, step: nat, view: AccountView, count: nat): seq<TradeIntent> {
    if count == 0 then [] else Answers(c, step, view, count - 1) + c.decide(step, count - 1, view)
  }

  /** Its answers about every underlying of the steps from `start` on, `views` being what it saw at each. */
  ghost function Asked(c: Config, start: nat, views: seq<AccountView>): seq<TradeIntent>
    requires views != [] ==> start + |views| <= |c.states|
  {
    if views == [] then [] else
      var step := start + |views| - 1;
      Asked(c, start, views[..|views| - 1]) + Answers(c, step, views[|views| - 1], |c.states[step]|)
  }

  lemma {:induction false} ScheduleOffers(c: Config, step: nat, q: Queue, intents: seq<TradeIntent>)
    ensures Schedule(c, step, q, intents).offered == q.offered + intents
  {
    hide Due, FiledAt;
    if intents != [] {
      ScheduleOffers(c, step, q, intents[..|intents| - 1]);
    }
  }

  lemma {:induction false} DecideOffers(c: Config, step: nat, view: AccountView, q: Queue, count: nat)
    ensures Decide(c, step, view, q, count).offered == q.offered + Answers(c, step, view, count)
  {
    hide Schedule;
    if count > 0 {
      DecideOffers(c, step, view, q, count - 1);
      ScheduleOffers(c, step, Decide(c, step, view, q, count - 1), c.decide(step, count - 1, view));
    }
  }

  /** `views` are the accounts of the books after each step's fills, and what was offered is what was asked of them. */
  ghost predicate AskedOf(c: Config, start: nat, t: Trace, views: seq<AccountView>) {
    && |views| == |t.books| && (views != [] ==> start + |views| <= |c.states|)
    && (forall i | 0 <= i < |views| :: Sees(views[i], t.books[i]))
    && t.queue.offered == Asked(c, start, views)
  }

  lemma StepAsks(c: Config, t: Trace, start: nat, index: nat, views: seq<AccountView>)
    requires c.Valid() && index < |c.times| && AskedOf(c, start, t, views) && start + |views| == index
    requires Step(c, t, index).Success? && Step(c, t, index).value.book.Valid()
    ensures AskedOf(c, start, Step(c, t, index).value, views + [ViewOf(Step(c, t, index).value.book)])
  {
    hide Execute, Decide, Answers, ViewOf, Sees, Book.Valid;
    var after := Step(c, t, index).value;
    var view, popped := ViewOf(after.book), t.queue.(pending := t.queue.pending - {index});
    AccountSeen(after.book);
    DecideOffers(c, index, view, popped, |c.states[index]|);
    assert (views + [view])[..|views|] == views;
  }

  /** Every step asks the strategy about each of its underlyings in turn, showing it the account after the step's fills;
      what a run has on offer is exactly those answers, and its log those of them that pass the gate in time. */
  lemma {:induction false} StrategyIsAsked(c: Config, book: Book, start: nat, end: nat)
    requires c.Valid() && end <= |c.times| && book.Balanced() && book.Valid()
    requires RunTo(c, book, start, end).Success?
    ensures var t := RunTo(c, book, start, end).value;
            && |t.books| == (if start < end then end - start else 0)
            && (exists views: seq<AccountView> ::
                  && |views| == |t.books| && (forall i | 0 <= i < |views| :: Sees(views[i], t.books[i]))
                  && t.queue.offered == Asked(c, start, views))
            && |t.queue.log| == |Accepted(c, t.queue.offered)|
            && forall i | 0 <= i < |t.queue.log| :: t.queue.log[i].intent == Accepted(c, t.queue.offered)[i]
  {
    hide Asked, Sees, Ran, Filed, Waiting, RunTo;
    RunOk(c, book, start, end);
    var views := ViewsOf(c, book, start, end);
  }

  lemma {:induction false} ViewsOf(c: Config, book: Book, start: nat, end: nat) returns (views: seq<AccountView>)
    requires c.Valid() && end <= |c.times| && book.Balanced() && book.Valid()
    requires RunTo(c, book, start, end).Success?
    ensures AskedOf(c, start, RunTo(c, book, start, end).value, views)
  {
    hide Step, TraceOk, Sees;
    if end <= start {
      views := [];
    } else {
      var before := RunTo(c, book, start, end - 1).value;
      views := ViewsOf(c, book, start, end - 1);
      RunOk(c, book, start, end - 1);
      RunOk(c, book, start, end);
      BooksCounted(c, book, before, start, end - 1);
      BooksCounted(c, book, RunTo(c, book, start, end).value, start, end);
      StepAsks(c, before, start, end - 1, views);
      views := views + [ViewOf(RunTo(c, book, start, end).value.book)];
    }
  }

  lemma BooksCounted(c: Config, book: Book, t: Trace, start: nat, now: nat)
    ensures TraceOk(c, book, t, start, now) ==>
              t.book.Valid() && |t.books| == if start < now then now - start else 0
  {
    hide QueueOk, Ran, Filed, Aligned, Book.Valid, Book.Balanced;
  }

  // ------------------------------------------------------------ marks, failures

  /** The legs of every state of a step, in order. */
  ghost function AllLegs(states: seq<MarketState>): seq<OptionLeg> {
    if states == [] then [] else AllLegs(states[..|states| - 1]) + states[|states| - 1]
  }

  ghost predicate Traded(leg: OptionLeg, k: int) {
    leg.instrumentId == k && leg.ltp.Some?
  }

  /** `legs[j]` is the last of `legs` with a last-traded price for `k`. */
  ghost predicate LastTraded(legs: seq<OptionLeg>, k: int, j: nat) {
    j < |legs| && Traded(legs[j], k) && forall i | j < i < |legs| :: !Traded(legs[i], k)
  }

  lemma {:induction false} LegMarkIsLast(legs: seq<OptionLeg>, k: int)
    ensures if exists leg | leg in legs :: Traded(leg, k)
            then k in LegMarks(legs) && exists j: nat :: LastTraded(legs, k, j) && LegMarks(legs)[k] == legs[j].ltp.value
            else k !in LegMarks(legs)
  {
    if legs != [] {
      var before, last := legs[..|legs| - 1], legs[|legs| - 1];
      LegMarkIsLast(before, k);
      assert forall leg :: leg in legs <==> leg in before || leg == last;
      if Traded(last, k) {
        assert LastTraded(legs, k, |legs| - 1);
      } else if exists leg | leg in before :: Traded(leg, k) {
        var j: nat :| LastTraded(before, k, j) && LegMarks(before)[k] == before[j].ltp.value;
        assert LastTraded(legs, k, j);
      }
    }
  }

  lemma {:induction false} LegMarksAppend(legs: seq<OptionLeg>, more: seq<OptionLeg>)
    ensures LegMarks(legs + more) == LegMarks(legs) + LegMarks(more)
  {
    if more == [] {
      assert legs + more == legs;
    } else {
      LegMarksAppend(legs, more[..|more| - 1]);
      assert (legs + more)[..|legs + more| - 1] == legs + more[..|more| - 1];
    }
  }

  lemma {:induction false} MarksAreLegMarks(states: seq<MarketState>)
    ensures Marks(states) == LegMarks(AllLegs(states))
  {
    if states != [] {
      MarksAreLegMarks(states[..|states| - 1]);
      LegMarksAppend(AllLegs(states[..|states| - 1]), states[|states| - 1]);
    }
  }

  /** The mark of an instrument is the last last-traded price among the legs of the step, if any leg has one. */
  lemma MarkIsLastTraded(states: seq<MarketState>, k: int)
    ensures var legs := AllLegs(states);
            if exists leg | leg in legs :: Traded(leg, k)
            then k in Marks(states) && exists j: nat :: LastTraded(legs, k, j) && Marks(states)[k] == legs[j].ltp.value
            else k !in Marks(states)
  {
    hide LastTraded, LegMarks, Marks;
    MarksAreLegMarks(states);
    LegMarkIsLast(AllLegs(states), k);
  }

  lemma {:induction false} ExecuteFailsExactly(c: Config, states: seq<MarketState>, book: Book, intents: seq<TradeIntent>)
    ensures Execute(c, states, book, intents).Failure? <==>
              exists k | 0 <= k < |intents| :: TryStates(c, intents[k], states).Failure?
  {
    hide TryStates;
    if intents != [] {
      var before, n := intents[..|intents| - 1], |intents| - 1;
      ExecuteFailsExactly(c, states, book, before);
      if k :| 0 <= k < n && TryStates(c, before[k], states).Failure? {
        assert TryStates(c, intents[k], states).Failure?;
      }
    }
  }

  /** An approval due at step `d`, and decided before it, makes the simulator raise. */
  ghost predicate RaisesAt(c: Config, log: seq<Approval>, d: nat)
    requires d < |c.states|
  {
    exists i | 0 <= i < |log| :: log[i].due == d && log[i].step < d && TryStates(c, log[i].intent, c.states[d]).Failure?
  }

  /** A step fails exactly when the simulator raises on something due at it. */
  lemma StepFailsExactly(c: Config, book: Book, t: Trace, start: nat, index: nat)
    requires c.Valid() && index < |c.times| && TraceOk(c, book, t, start, index)
    ensures Step(c, t, index).Failure? <==> RaisesAt(c, t.queue.log, index)
  {
    hide TryStates, Execute, Decide, LogOk, Filed, Ran, Waiting, InTime;
    var due, positions := FiledAt(t.queue.pending, index), InTime(t.queue.log, index);
    PopOk(c, t.queue, start, index);
    InTimePositions(t.queue.log, index);
    ExecuteFailsExactly(c, c.states[index], t.book, due);
    if k :| 0 <= k < |due| && TryStates(c, due[k], c.states[index]).Failure? {
      assert positions[k] in positions;
    }
    if i :| 0 <= i < |t.queue.log| && t.queue.log[i].due == index && t.queue.log[i].step < index
            && TryStates(c, t.queue.log[i].intent, c.states[index]).Failure? {
      assert i in positions;
      var k :| 0 <= k < |positions| && positions[k] == i;
      assert due[k] == t.queue.log[i].intent;
    }
  }

  /** A run fails exactly when, at some step it reaches, the simulator raises on an approval due there. */
  lemma {:induction false} RunFailsExactly(c: Config, book: Book, start: nat, end: nat)
    requires c.Valid() && end <= |c.times| && book.Balanced() && book.Valid()
    ensures RunTo(c, book, start, end).Failure? <==>
              exists d | start <= d < end ::
                RunTo(c, book, start, d).Success? && RaisesAt(c, RunTo(c, book, start, d).value.queue.log, d)
  {
    hide Step, TraceOk, RaisesAt;
    if start < end {
      var before := RunTo(c, book, start, end - 1);
      RunFailsExactly(c, book, start, end - 1);
      RunOk(c, book, start, end - 1);
      if before.Success? {
        StepFailsExactly(c, book, before.value, start, end - 1);
      }
    }
  }

  ghost predicate NonDecreasing(times: seq<int>) {
    forall i, j | 0 <= i <= j < |times| :: times[i] <= times[j]
  }

  /** The strategy stamps each intent with the time of the step it is asked at. */
  ghost predicate OwnStamps(c: Config) {
    forall step: nat, underlying: nat, view, intent |
      step < |c.times| && intent in c.decide(step, underlying, view) :: intent.decisionTime == c.times[step]
  }

  /** With positive latency an approval is always due after its own step; without, never. */
  lemma DueAgainstLatency(c: Config, a: Approval, start: nat, now: nat)
    requires NonDecreasing(c.times) && OwnStamps(c) && now <= |c.times|
    requires ApprovalOk(c, a, start, now)
    ensures a.due < |c.times|
    ensures c.times[a.due] >= a.intent.decisionTime + c.latency
    ensures forall i | 0 <= i < a.due :: c.times[i] < a.intent.decisionTime + c.latency
    ensures c.latency > 0 <==> a.step < a.due
  {
    FirstFromIsFirst(c.times, a.intent.decisionTime + c.latency, 0);
    assert a.intent.decisionTime == c.times[a.step];
  }

  /** `later` goes on from `earlier`, which had reached step `now`. */
  ghost predicate Extends(earlier: Trace, later: Trace, now: nat) {
    && earlier.outcomes <= later.outcomes && earlier.executed <= later.executed
    && earlier.books <= later.books
    && earlier.queue.log <= later.queue.log
    && forall i | |earlier.queue.log| <= i < |later.queue.log| :: later.queue.log[i].step >= now
  }

  lemma StepExtends(c: Config, book: Book, t: Trace, start: nat, index: nat)
    requires c.Valid() && start <= index < |c.times| && TraceOk(c, book, t, start, index)
    requires Step(c, t, index).Success?
    ensures Extends(t, Step(c, t, index).value, index)
  {
    hide QueueOk, Execute, Decide, Aligned, Ran, Filed;
    var after, popped := Step(c, t, index).value, t.queue.(pending := t.queue.pending - {index});
    PopOk(c, t.queue, start, index);
    DecideOk(c, ViewOf(after.book), popped, |c.states[index]|, start, index);
  }

  lemma {:induction false} RunExtends(c: Config, book: Book, start: nat, mid: nat, end: nat)
    requires c.Valid() && start <= mid <= end <= |c.times| && book.Balanced() && book.Valid()
    requires RunTo(c, book, start, end).Success?
    ensures RunTo(c, book, start, mid).Success?
    ensures Extends(RunTo(c, book, start, mid).value, RunTo(c, book, start, end).value, mid)
    decreases end - mid
  {
    hide Step, TraceOk;
    if mid < end {
      var before, after := RunTo(c, book, start, end - 1), RunTo(c, book, start, end);
      RunExtends(c, book, start, mid, end - 1);
      RunOk(c, book, start, end - 1);
      StepExtends(c, book, before.value, start, end - 1);
    }
  }

  /** Among the outcomes of step `d`, one answers position `i` of the log, from the states of that step. */
  ghost predicate AnsweredAt(c: Config, book: Book, start: nat, t: Trace, i: nat, d: nat)
    requires c.Valid() && d < |c.times| && i < |t.queue.log|
  {
    var before, after := RunTo(c, book, start, d), RunTo(c, book, start, d + 1);
    && before.Success? && after.Success?
    && exists k | |before.value.outcomes| <= k < |after.value.outcomes| ::
         && k < |t.executed| == |t.outcomes| && t.executed[k] == i && t.outcomes[k] == after.value.outcomes[k]
         && IntentOf(t.outcomes[k]) == t.queue.log[i].intent.intentId
         && TryStates(c, t.queue.log[i].intent, c.states[d]) == Success(t.outcomes[k])
  }

  /** An approval due after the step it was decided at is answered at its due step. */
  lemma AnsweredWhenDue(c: Config, book: Book, start: nat, end: nat, i: nat)
    requires c.Valid() && start <= end <= |c.times| && book.Balanced() && book.Valid()
    requires RunTo(c, book, start, end).Success?
    requires var log := RunTo(c, book, start, end).value.queue.log;
             i < |log| && log[i].step < log[i].due < end
    ensures var t := RunTo(c, book, start, end).value;
            Due(c, t.queue.log[i].intent) == Some(t.queue.log[i].due)
            && AnsweredAt(c, book, start, t, i, t.queue.log[i].due)
  {
    hide RunTo, TraceOk, Extends, QueueOk;
    var t := RunTo(c, book, start, end).value;
    var d := t.queue.log[i].due;
    RunOk(c, book, start, end);
    ApprovalAt(c, book, t, start, end, i);
    RunExtends(c, book, start, d, end);
    RunExtends(c, book, start, d + 1, end);
    StepAnswersWhatIsDue(c, book, start, d);
    var before, after := RunTo(c, book, start, d).value, RunTo(c, book, start, d + 1).value;
    var k := DueAnswered(c, t, after, |before.outcomes|, i, c.states[d]);
    AlignedAt(c, book, t, start, end, k);
  }

  /** What a step answers in turn stands in every later log. */
  lemma DueAnswered(c: Config, t: Trace, after: Trace, from: nat, i: nat, states: seq<MarketState>) returns (k: nat)
    requires i < |t.queue.log| && t.queue.log[i].step < t.queue.log[i].due
    requires Extends(after, t, t.queue.log[i].due + 1)
    requires from <= |after.executed| == |after.outcomes|
    requires after.executed[from..] == InTime(after.queue.log, t.queue.log[i].due)
    requires Simulated(c, states, after.queue.log, after.executed[from..], after.outcomes[from..])
    ensures from <= k < |after.outcomes| <= |t.outcomes| && |after.executed| <= |t.executed|
    ensures t.executed[k] == i && t.outcomes[k] == after.outcomes[k]
    ensures TryStates(c, t.queue.log[i].intent, states) == Success(t.outcomes[k])
  {
    hide TryStates;
    InTimeStable(after.queue.log, t.queue.log, t.queue.log[i].due);
    InTimePositions(t.queue.log, t.queue.log[i].due);
    assert i in after.executed[from..];
    k :| from <= k < |after.executed| && after.executed[k] == i;
    assert after.executed[from..][k - from] == i && after.outcomes[from..][k - from] == after.outcomes[k];
  }

  lemma AlignedAt(c: Config, book: Book, t: Trace, start: nat, now: nat, k: nat)
    requires TraceOk(c, book, t, start, now) && k < |t.executed|
    ensures |t.executed| == |t.outcomes| && t.executed[k] < |t.queue.log|
    ensures IntentOf(t.outcomes[k]) == t.queue.log[t.executed[k]].intent.intentId
  {
    hide QueueOk, Ran, Filed;
  }

  lemma NothingRun(c: Config, book: Book, start: nat, end: nat)
    requires c.Valid() && end <= start && end <= |c.times|
    ensures RunTo(c, book, start, end) == Success(Started(book))
  {
  }

  /** With ordered steps, own stamps and positive latency, nothing is left filed: every approval runs exactly once,
      answered at the first step not before its decision plus the latency. */
  lemma EveryApprovalRunsOnce(c: Config, book: Book, start: nat)
    requires c.Valid() && book.Balanced() && book.Valid()
    requires NonDecreasing(c.times) && OwnStamps(c) && c.latency > 0
    ensures var r := RunTo(c, book, start, |c.times|);
            r.Success? ==>
              var t := r.value;
              && Filed(t.queue.pending) == 0
              && |t.outcomes| == |t.queue.log| == |t.executed|
              && (forall i :: i in t.executed <==> 0 <= i < |t.queue.log|)
              && t.queue.generated == t.queue.riskRejected + t.queue.expired + |t.outcomes|
              && forall i | 0 <= i < |t.queue.log| ::
                   var a := t.queue.log[i];
                   && a.due < |c.times| && AnsweredAt(c, book, start, t, i, a.due)
                   && c.times[a.due] >= a.intent.decisionTime + c.latency
                   && forall j | 0 <= j < a.due :: c.times[j] < a.intent.decisionTime + c.latency
  {
    hide RunTo, Ran, Filed, QueueOk, Waiting, AnsweredAt;
    var r := RunTo(c, book, start, |c.times|);
    RunOk(c, book, start, |c.times|);
    RunsIffDueLater(c, book, start);
    if r.Success? {
      var t := r.value;
      IntentsConserved(c, book, start, |c.times|);
      if |c.times| < start { NothingRun(c, book, start, |c.times|); }
      forall i | 0 <= i < |t.queue.log|
        ensures t.queue.log[i].step < t.queue.log[i].due < |c.times|
        ensures AnsweredAt(c, book, start, t, i, t.queue.log[i].due)
        ensures c.times[t.queue.log[i].due] >= t.queue.log[i].intent.decisionTime + c.latency
        ensures forall j | 0 <= j < t.queue.log[i].due :: c.times[j] < t.queue.log[i].intent.decisionTime + c.latency
      {
        ApprovalAt(c, book, t, start, |c.times|, i);
        DueAgainstLatency(c, t.queue.log[i], start, |c.times|);
        AnsweredWhenDue(c, book, start, |c.times|, i);
      }
      DistinctCover(t.executed, |t.queue.log|);
    }
  }

  /** Without latency every approval is stranded: each is filed under a step already executed. */
  lemma NoLatencyNothingRuns(c: Config, book: Book, start: nat)
    requires c.Valid() && book.Balanced() && book.Valid()
    requires NonDecreasing(c.times) && OwnStamps(c) && c.latency <= 0
    ensures var r := RunTo(c, book, start, |c.times|);
            r.Success? ==> r.value.outcomes == [] && Filed(r.value.queue.pending) == |r.value.queue.log|
  {
    var r := RunTo(c, book, start, |c.times|);
    RunOk(c, book, start, |c.times|);
    RunsIffDueLater(c, book, start);
    if r.Success? && r.value.executed != [] {
      var t := r.value;
      assert t.executed[0] in t.executed;
      DueAgainstLatency(c, t.queue.log[t.executed[0]], start, |c.times|);
    }
  }

  lemma {:induction false} DistinctCover(s: seq<nat>, n: nat)
    requires forall i :: i in s <==> 0 <= i < n
    requires NoRepeats(s)
    ensures |s| == n
    decreases n
  {
    if n == 0 {
      assert forall k | 0 <= k < |s| :: s[k] in s;
    } else {
      assert n - 1 in s;
      var p :| 0 <= p < |s| && s[p] == n - 1;
      var rest := s[..p] + s[p + 1..];
      forall i ensures i in rest <==> 0 <= i < n - 1 {
        assert s == s[..p] + [s[p]] + s[p + 1..];
        assert i in s <==> i in rest || i == s[p];
      }
      DistinctCover(rest, n - 1);
    }
  }

  lemma LastReadingBounds(openingCash: real, equities: seq<real>)
    requires equities != []
    ensures openingCash - equities[|equities| - 1] <= Drawdown(openingCash, equities)
  {
    DrawdownIsLargestFall(openingCash, equities);
    assert Level(openingCash, equities, 0) - Level(openingCash, equities, |equities|)
             <= Drawdown(openingCash, equities);
  }

  lemma LastBook(c: Config, book: Book, start: nat, end: nat)
    requires c.Valid() && start < end <= |c.times| && RunTo(c, book, start, end).Success?
    ensures var t := RunTo(c, book, start, end).value;
            t.books != [] && t.books[|t.books| - 1] == t.book
  {
  }

  /** At every point of a run that has read its equity, the loss is within the reported drawdown. */
  lemma LossWithinDrawdown(c: Config, book: Book, start: nat, end: nat)
    requires c.Valid() && book.Balanced() && book.Valid() && start < end <= |c.times|
    ensures var r := RunTo(c, book, start, end);
            r.Success? ==>
              && |r.value.books| == end - start
              && SnapshotOf(r.value.book, Marks(c.states[end - 1])).NetPnl()
                   >= -Drawdown(book.openingCash, Readings(c, start, r.value.books))
  {
    hide Step, SnapshotOf;
    if RunTo(c, book, start, end).Success? {
      var t := RunTo(c, book, start, end).value;
      RunOk(c, book, start, end);
      LastBook(c, book, start, end);
      LastReadingBounds(book.openingCash, Readings(c, start, t.books));
      EquityIsOpeningPlusNet(t.book, Marks(c.states[end - 1]));
    }
  }

  function FillsOf(outcomes: seq<FillOutcome>): seq<Fill> {
    if outcomes == [] then [] else
      var last := outcomes[|outcomes| - 1];
      FillsOf(outcomes[..|outcomes| - 1]) + if last.Filled? then [last.fill] else []
  }

  lemma {:induction false} FillsAppend(outcomes: seq<FillOutcome>, more: seq<FillOutcome>)
    ensures FillsOf(outcomes + more) == FillsOf(outcomes) + FillsOf(more)
  {
    if more == [] {
      assert outcomes + more == outcomes;
    } else {
      FillsAppend(outcomes, more[..|more| - 1]);
      assert (outcomes + more)[..|outcomes + more| - 1] == outcomes + more[..|more| - 1];
    }
  }

  lemma {:induction false} ApplyAllAppend(book: Book, fills: seq<Fill>, more: seq<Fill>)
    ensures ApplyAll(book, fills + more) == ApplyAll(ApplyAll(book, fills), more)
  {
    hide ApplyFill;
    if more == [] {
      assert fills + more == fills;
    } else {
      ApplyAllAppend(book, fills, more[..|more| - 1]);
      assert (fills + more)[..|fills + more| - 1] == fills + more[..|more| - 1];
    }
  }

  lemma {:induction false} ExecuteAppliesFills(c: Config, states: seq<MarketState>, book: Book, intents: seq<TradeIntent>)
    ensures var r := Execute(c, states, book, intents);
            r.Success? ==> r.value.0 == ApplyAll(book, FillsOf(r.value.1))
  {
    hide ApplyFill, TryStates;
    if intents != [] {
      var before, r := Execute(c, states, book, intents[..|intents| - 1]), Execute(c, states, book, intents);
      ExecuteAppliesFills(c, states, book, intents[..|intents| - 1]);
      if r.Success? {
        var last := r.value.1[|r.value.1| - 1];
        assert r.value.1[..|r.value.1| - 1] == before.value.1;
        if last.Filled? {
          var fills := FillsOf(r.value.1);
          assert fills == FillsOf(before.value.1) + [last.fill];
          assert fills[..|fills| - 1] == FillsOf(before.value.1);
          assert r.value.0 == ApplyFill(before.value.0, last.fill);
        } else {
          assert FillsOf(r.value.1) == FillsOf(before.value.1);
        }
      }
    }
  }

  /** The ledger a run ends with is the ledger of the fills it reports, in order, and nothing else. */
  lemma {:induction false} LedgerIsItsFills(c: Config, book: Book, start: nat, end: nat)
    requires c.Valid() && end <= |c.times|
    ensures var r := RunTo(c, book, start, end);
            r.Success? ==> r.value.book == ApplyAll(book, FillsOf(r.value.outcomes))
  {
    hide ApplyFill, Decide, Execute;
    if start < end {
      var before := RunTo(c, book, start, end - 1);
      LedgerIsItsFills(c, book, start, end - 1);
      if RunTo(c, book, start, end).Success? {
        var t, index := before.value, end - 1;
        var due := FiledAt(t.queue.pending, index);
        var more := Execute(c, c.states[index], t.book, due).value.1;
        ExecuteAppliesFills(c, c.states[index], t.book, due);
        FillsAppend(t.outcomes, more);
        ApplyAllAppend(book, FillsOf(t.outcomes), FillsOf(more));
      }
    }
  }

  /** The simulation charges whole paise only. */
  ghost predicate ChargesPaise(simulate: Simulator) {
    forall intent, state :: PaiseCharged(simulate(intent, state))
  }

  ghost predicate PaiseCharged(r: Result<FillOutcome, Error>) {
    r.Success? && r.value.Filled? ==> r.value.fill.costs.InPaise()
  }

  lemma SimulatorChargesPaise(model: FillModel, draw: string -> real)
    ensures ChargesPaise(SimulatorOf(model, draw))
  {
  }

  lemma {:induction false} TryStatesPaise(c: Config, intent: TradeIntent, states: seq<MarketState>)
    requires ChargesPaise(c.simulate)
    ensures PaiseCharged(TryStates(c, intent, states))
  {
    if states != [] {
      TryStatesPaise(c, intent, states[1..]);
    }
  }

  ghost predicate AllPaise(outcomes: seq<FillOutcome>) {
    forall o | o in outcomes :: o.Filled? ==> o.fill.costs.InPaise()
  }

  lemma {:induction false} ExecutePaise(c: Config, states: seq<MarketState>, book: Book, intents: seq<TradeIntent>)
    requires ChargesPaise(c.simulate)
    ensures var r := Execute(c, states, book, intents);
            r.Success? ==> AllPaise(r.value.1)
  {
    hide ApplyFill;
    if intents != [] {
      ExecutePaise(c, states, book, intents[..|intents| - 1]);
      TryStatesPaise(c, intents[|intents| - 1], states);
    }
  }

  lemma {:induction false} RunPaise(c: Config, book: Book, start: nat, end: nat)
    requires c.Valid() && end <= |c.times| && ChargesPaise(c.simulate)
    ensures var r := RunTo(c, book, start, end);
            r.Success? ==> AllPaise(r.value.outcomes)
  {
    hide Decide;
    if start < end {
      RunPaise(c, book, start, end - 1);
      var before := RunTo(c, book, start, end - 1);
      if before.Success? {
        ExecutePaise(c, c.states[end - 1], before.value.book, FiledAt(before.value.queue.pending, end - 1));
      }
    }
  }

  lemma {:induction false} FillsPaise(outcomes: seq<FillOutcome>)
    requires AllPaise(outcomes)
    ensures forall f | f in FillsOf(outcomes) :: f.costs.InPaise()
  {
    if outcomes != [] {
      FillsPaise(outcomes[..|outcomes| - 1]);
    }
  }

  /** The fees a run reports are exactly the total of the cost breakdown it accumulated. */
  lemma RunFeesAreExact(c: Config, openingCash: real, start: nat, end: nat)
    requires c.Valid() && end <= |c.times| && ChargesPaise(c.simulate)
    ensures var r := RunTo(c, Opened(openingCash), start, end);
            r.Success? ==> r.value.book.fees == r.value.book.costs.Total()
  {
    hide Step, ApplyFill;
    if RunTo(c, Opened(openingCash), start, end).Success? {
      var t := RunTo(c, Opened(openingCash), start, end).value;
      LedgerIsItsFills(c, Opened(openingCash), start, end);
      RunPaise(c, Opened(openingCash), start, end);
      FillsPaise(t.outcomes);
      FeesAreTheBreakdownTotal(openingCash, FillsOf(t.outcomes));
    }
  }

  /** The answer is that of the first state that is able to price the intent; only when none is does
      the intent go without a price. */
  lemma {:induction false} FirstAnswerWins(c: Config, intent: TradeIntent, states: seq<MarketState>)
    ensures var none := Success(Rejected(intent.intentId, NoPriceAvailable));
            var r := TryStates(c, intent, states);
            && (r == none <==> forall s | s in states :: c.simulate(intent, s) == none)
            && (r != none ==> exists i | 0 <= i < |states| ::
                  c.simulate(intent, states[i]) == r && forall j | 0 <= j < i :: c.simulate(intent, states[j]) == none)
  {
    var none := Success(Rejected(intent.intentId, NoPriceAvailable));
    if states != [] {
      FirstAnswerWins(c, intent, states[1..]);
      if c.simulate(intent, states[0]) == none {
        if TryStates(c, intent, states) != none {
          var i :| 0 <= i < |states[1..]| && c.simulate(intent, states[1..][i]) == TryStates(c, intent, states[1..])
                   && forall j | 0 <= j < i :: c.simulate(intent, states[1..][j]) == none;
          assert states[i + 1] == states[1..][i];
          forall j | 0 <= j < i + 1 ensures c.simulate(intent, states[j]) == none {
            if j > 0 { assert states[j] == states[1..][j - 1]; }
          }
        }
      } else {
        assert states[0] in states;
      }
    }
  }

  // ---------------------------------------------------------------- the runner

  datatype BacktestResult = BacktestResult(
    finalLedger: LedgerSnapshot,
    fills: seq<Fill>,
    outcomes: seq<FillOutcome>,
    intentsGenerated: nat,
    intentsRejectedByRisk: nat,
    expired: nat,
    stillPending: nat,
    maxDrawdown: real)

  /** The result reports the state the run ended in. */
  ghost predicate Reports(c: Config, start: nat, t: Trace, r: BacktestResult)
    requires c.Valid() && |t.books| == if start < |c.times| then |c.times| - start else 0
  {
    && r.finalLedger == SnapshotOf(t.book, if start < |c.times| then Marks(c.states[|c.times| - 1]) else map[])
    && r.fills == FillsOf(t.outcomes)
    && r.outcomes == t.outcomes
    && r.intentsGenerated == t.queue.generated
    && r.intentsRejectedByRisk == t.queue.riskRejected
    && r.expired == t.queue.expired
    && r.stillPending == Filed(t.queue.pending)
    && r.maxDrawdown == Drawdown(t.book.openingCash, Readings(c, start, t.books))
  }

  /** Try the states in order until one answers. */
  method ExecuteIntent(c: Config, intent: TradeIntent, states: seq<MarketState>, book: Ledger)
    returns (r: Result<FillOutcome, Error>)
    requires AnswersIntents(c.simulate)
    modifies book
    ensures r == TryStates(c, intent, states)
    ensures r.Success? ==> book.Contents() == BookAfter(old(book.Contents()), r.value)
    ensures r.Failure? ==> book.Contents() == old(book.Contents())
  {
    for i := 0 to |states|
      invariant TryStates(c, intent, states) == TryStates(c, intent, states[i..])
      invariant book.Contents() == old(book.Contents())
    {
      assert states[i..][0] == states[i] && states[i..][1..] == states[i + 1..];
      r := c.simulate(intent, states[i]);
      if r.Failure? {
        return;
      }
      if r.value.Filled? {
        var _ := book.Apply(r.value.fill);
        return;
      }
      if r.value.rejection != NoPriceAvailable {
        return;
      }
    }
    r := Success(Rejected(intent.intentId, NoPriceAvailable));
  }

  /** Execute everything due at a step. */
  method ExecuteDue(c: Config, states: seq<MarketState>, due: seq<TradeIntent>, book: Ledger)
    returns (r: Result<seq<FillOutcome>, Error>)
    requires AnswersIntents(c.simulate)
    modifies book
    ensures var spec := Execute(c, states, old(book.Contents()), due);
            && (r.Success? <==> spec.Success?)
            && (r.Success? ==> r.value == spec.value.1 && book.Contents() == spec.value.0)
  {
    var outcomes := [];
    for i := 0 to |due|
      invariant Execute(c, states, old(book.Contents()), due[..i]) == Success((book.Contents(), outcomes))
    {
      assert due[..i + 1][..i] == due[..i];
      var outcome := ExecuteIntent(c, due[i], states, book);
      if outcome.Failure? {
        ExecuteFails(c, states, old(book.Contents()), due, i + 1);
        return Failure(outcome.error);
      }
      outcomes := outcomes + [outcome.value];
    }
    assert due[..|due|] == due;
    return Success(outcomes);
  }

  lemma {:induction false} ExecuteFails(c: Config, states: seq<MarketState>, book: Book, due: seq<TradeIntent>, i: nat)
    requires i <= |due| && Execute(c, states, book, due[..i]).Failure?
    ensures Execute(c, states, book, due).Failure?
    decreases |due|
  {
    if i < |due| {
      assert due[..|due| - 1][..i] == due[..i];
      ExecuteFails(c, states, book, due[..|due| - 1], i);
    } else {
      assert due[..i] == due;
    }
  }

  /** The scheduler's variables. */
  datatype Desk = Desk(pending: Pending, generated: nat, riskRejected: nat, expired: nat)

  function DeskOf(q: Queue): Desk {
    Desk(q.pending, q.generated, q.riskRejected, q.expired)
  }

  /** Gate and schedule what the strategy returned for one underlying. */
  method GateAndSchedule(c: Config, step: nat, ghost q: Queue, desk: Desk, intents: seq<TradeIntent>)
    returns (desk': Desk)
    requires desk == DeskOf(q)
    ensures desk' == DeskOf(Schedule(c, step, q, intents))
  {
    var pending: Pending := desk.pending;
    var generated, riskRejected, expired := desk.generated, desk.riskRejected, desk.expired;
    for i := 0 to |intents|
      invariant Desk(pending, generated, riskRejected, expired) == DeskOf(Schedule(c, step, q, intents[..i]))
    {
      assert intents[..i + 1][..i] == intents[..i];
      generated := generated + 1;
      if !c.approves(intents[i]) {
        riskRejected := riskRejected + 1;
      } else {
        var due := ExecutionStepIndex(c.times, intents[i].decisionTime, c.latency);
        if due.None? {
          expired := expired + 1;
        } else {
          pending := pending[due.value := FiledAt(pending, due.value) + [intents[i]]];
        }
      }
    }
    assert intents[..|intents|] == intents;
    desk' := Desk(pending, generated, riskRejected, expired);
  }

  /** Ask the strategy about every underlying of a step. */
  method DecideStep(c: Config, step: nat, underlyings: nat, book: Ledger, ghost q: Queue, desk: Desk)
    returns (desk': Desk)
    requires desk == DeskOf(q)
    ensures desk' == DeskOf(Decide(c, step, ViewOf(book.Contents()), q, underlyings))
  {
    var open := OpenPositions(book.positions);
    var view := AccountView(book.cash,
                            seq(|open|, i requires 0 <= i < |open| => (open[i].instrumentId, open[i].quantity)));
    assert view == ViewOf(book.Contents());
    desk' := desk;
    for u := 0 to underlyings
      invariant desk' == DeskOf(Decide(c, step, view, q, u))
    {
      desk' := GateAndSchedule(c, step, Decide(c, step, view, q, u), desk', c.decide(step, u, view));
    }
  }

  method CountFiled(pending: Pending) returns (n: nat)
    ensures n == Filed(pending)
  {
    var rest := pending;
    n := 0;
    while rest != map[]
      invariant n + Filed(rest) == Filed(pending)
      decreases |rest|
    {
      var d :| d in rest.Keys;
      FiledRemove(rest, d);
      n := n + |rest[d]|;
      rest := rest - {d};
    }
  }

  /** Execute, measure and decide at one step. */
  method RunStep(c: Config, index: nat, book: Ledger, ghost t: Trace, desk: Desk, outcomes: seq<FillOutcome>)
    returns (r: Result<(Desk, seq<FillOutcome>, real), Error>)
    requires c.Valid() && index < |c.times|
    requires t.book == book.Contents() && DeskOf(t.queue) == desk && t.outcomes == outcomes
    modifies book
    ensures var spec := Step(c, t, index);
            && (r.Success? <==> spec.Success?)
            && (r.Success? ==>
                  && spec.value.book == book.Contents()
                  && DeskOf(spec.value.queue) == r.value.0
                  && spec.value.outcomes == r.value.1
                  && spec.value.books == t.books + [book.Contents()]
                  && r.value.2 == Equity(c, book.Contents(), index))
  {
    var states := c.states[index];
    var due := FiledAt(desk.pending, index);
    var popped := desk.(pending := desk.pending - {index});
    var executed := ExecuteDue(c, states, due, book);
    if executed.Failure? {
      return Failure(executed.error);
    }
    var snapshot := book.Snapshot(Marks(states));
    var desk' := DecideStep(c, index, |states|, book, t.queue.(pending := popped.pending), popped);
    return Success((desk', outcomes + executed.value, snapshot.Equity()));
  }

  /** A failed step ends the run. */
  lemma {:induction false} RunFails(c: Config, book: Book, start: nat, end: nat, n: nat)
    requires c.Valid() && start < end <= n <= |c.times|
    requires RunTo(c, book, start, end).Failure?
    ensures RunTo(c, book, start, n).Failure?
  {
    hide Step;
    if end < n {
      RunFails(c, book, start, end, n - 1);
    }
  }

  lemma ReadingExtends(openingCash: real, equities: seq<real>, equity: real)
    ensures Peak(openingCash, equities + [equity]) == Max(Peak(openingCash, equities), equity)
    ensures Drawdown(openingCash, equities + [equity])
              == Max(Drawdown(openingCash, equities), Peak(openingCash, equities + [equity]) - equity)
  {
  }

  /** Walk the timeline from `start`, on a ledger that may carry an earlier run. */
  method Run(c: Config, start: nat, book: Ledger) returns (r: Result<BacktestResult, Error>)
    requires c.Valid() && book.Contents().Balanced() && book.Contents().Valid()
    modifies book
    ensures var spec := RunTo(c, old(book.Contents()), start, |c.times|);
            && (r.Success? <==> spec.Success?)
            && (r.Success? ==>
                  && book.Contents() == spec.value.book
                  && |spec.value.books| == (if start < |c.times| then |c.times| - start else 0)
                  && Reports(c, start, spec.value, r.value))
  {
    hide Step, SnapshotOf, Equity, DeskOf, Readings, Peak, Drawdown, Filed;
    Unstarted(c, start, book.openingCash);
    var desk, outcomes := Desk(map[], 0, 0, 0), [];
    var peak, drawdown := book.openingCash, 0.0;
    var lastStates: seq<MarketState> := [];
    ghost var carried, t := book.Contents(), Started(book.Contents());
    var end := if start < |c.times| then |c.times| else start;
    for index := start to end
      invariant index <= |c.times| ==> RunTo(c, carried, start, index) == Success(t)
      invariant index == start ==> t == Started(carried)
      invariant |t.books| == index - start
      invariant t.book == book.Contents() && DeskOf(t.queue) == desk && t.outcomes == outcomes
      invariant peak == Peak(book.openingCash, Readings(c, start, t.books))
      invariant drawdown == Drawdown(book.openingCash, Readings(c, start, t.books))
      invariant lastStates == if start < index <= |c.times| then c.states[index - 1] else []
    {
      var stepped := RunStep(c, index, book, t, desk, outcomes);
      if stepped.Failure? {
        RunFails(c, carried, start, index + 1, |c.times|);
        return Failure(stepped.error);
      }
      var equity := stepped.value.2;
      desk, outcomes, lastStates := stepped.value.0, stepped.value.1, c.states[index];
      ReadingExtends(book.openingCash, Readings(c, start, t.books), equity);
      peak := Max(peak, equity);
      drawdown := Max(drawdown, peak - equity);
      ReadingsExtend(c, start, t.books, book.Contents());
      t := Step(c, t, index).value;
    }
    var final := book.Snapshot(Marks(lastStates));
    var stillPending := CountFiled(desk.pending);
    r := Success(BacktestResult(final, FillsOf(outcomes), outcomes, desk.generated, desk.riskRejected,
                                desk.expired, stillPending, drawdown));
    DeskParts(t.queue);
  }

  lemma Unstarted(c: Config, start: nat, openingCash: real)
    ensures DeskOf(EMPTY_QUEUE) == Desk(map[], 0, 0, 0)
    ensures Peak(openingCash, Readings(c, start, [])) == openingCash
    ensures Drawdown(openingCash, Readings(c, start, [])) == 0.0
  {
  }

  lemma DeskParts(q: Queue)
    ensures DeskOf(q).pending == q.pending && DeskOf(q).generated == q.generated
    ensures DeskOf(q).riskRejected == q.riskRejected && DeskOf(q).expired == q.expired
  {
  }

  lemma ReadingsExtend(c: Config, start: nat, books: seq<Book>, book: Book)
    requires start + |books| < |c.states|
    ensures Readings(c, start, books + [book]) == Readings(c, start, books) + [Equity(c, book, start + |books|)]
  {
    hide Equity;
    assert (books + [book])[..|books|] == books;
  }
}

/** Resuming a run: what a run stopped before a step and continued with its ledger has in common with the run that was
    not stopped. */
module Resuming {
  import opened Wrappers
  import opened Fills
  import opened BookKeeping
  import opened Drawdowns
  import opened Backtest

  /** An uninterrupted run's queue beside a resumed one's, after a first part that left `p` at step `n`. */
  ghost predicate QueuesMeet(p: Queue, u: Queue, r: Queue, n: nat, now: nat) {
    && u.log == p.log + r.log
    && u.generated == p.generated + r.generated
    && u.riskRejected == p.riskRejected + r.riskRejected && u.expired == p.expired + r.expired
    && forall d: nat | d >= now :: FiledAt(u.pending, d) == Waiting(p.log, d, n) + FiledAt(r.pending, d)
  }

  ghost predicate RunsMeet(p: Trace, u: Trace, r: Trace, n: nat, now: nat) {
    && u.book == r.book && u.outcomes == p.outcomes + r.outcomes && u.books == p.books + r.books
    && QueuesMeet(p.queue, u.queue, r.queue, n, now)
  }

  lemma ScheduleOneMeets(c: Config, step: nat, p: Queue, u: Queue, r: Queue, n: nat, now: nat, intent: TradeIntent)
    requires QueuesMeet(p, u, r, n, now)
    ensures QueuesMeet(p, ScheduleOne(c, step, u, intent), ScheduleOne(c, step, r, intent), n, now)
  {
    hide Waiting, FirstFrom, Due;
    var nu, nr := ScheduleOne(c, step, u, intent), ScheduleOne(c, step, r, intent);
    forall d: nat | d >= now ensures FiledAt(nu.pending, d) == Waiting(p.log, d, n) + FiledAt(nr.pending, d) {
      assert FiledAt(u.pending, d) == Waiting(p.log, d, n) + FiledAt(r.pending, d);
    }
  }

  lemma {:induction false} ScheduleMeets(
    c: Config, step: nat, p: Queue, u: Queue, r: Queue, n: nat, now: nat, intents: seq<TradeIntent>)
    requires QueuesMeet(p, u, r, n, now)
    ensures QueuesMeet(p, Schedule(c, step, u, intents), Schedule(c, step, r, intents), n, now)
  {
    hide QueuesMeet, ScheduleOne;
    if intents != [] {
      var before := intents[..|intents| - 1];
      ScheduleMeets(c, step, p, u, r, n, now, before);
      ScheduleOneMeets(c, step, p, Schedule(c, step, u, before), Schedule(c, step, r, before), n, now,
                       intents[|intents| - 1]);
    }
  }

  lemma {:induction false} DecideMeets(
    c: Config, step: nat, view: AccountView, p: Queue, u: Queue, r: Queue, n: nat, now: nat, count: nat)
    requires QueuesMeet(p, u, r, n, now)
    ensures QueuesMeet(p, Decide(c, step, view, u, count), Decide(c, step, view, r, count), n, now)
  {
    hide QueuesMeet, Schedule;
    if count > 0 {
      DecideMeets(c, step, view, p, u, r, n, now, count - 1);
      ScheduleMeets(c, step, p, Decide(c, step, view, u, count - 1), Decide(c, step, view, r, count - 1), n, now,
                    c.decide(step, count - 1, view));
    }
  }

  /** At a step for which the first part left nothing, both runs do the same. */
  lemma StepMeets(c: Config, p: Trace, u: Trace, r: Trace, n: nat, index: nat)
    requires c.Valid() && index < |c.times| && RunsMeet(p, u, r, n, index)
    requires Waiting(p.queue.log, index, n) == []
    ensures Step(c, u, index).Success? <==> Step(c, r, index).Success?
    ensures Step(c, u, index).Success? ==>
              RunsMeet(p, Step(c, u, index).value, Step(c, r, index).value, n, index + 1)
  {
    hide Waiting, Decide, Execute;
    var due := FiledAt(r.queue.pending, index);
    assert FiledAt(u.queue.pending, index) == [] + due == due;
    if Step(c, u, index).Success? {
      var nu, nr := Step(c, u, index).value, Step(c, r, index).value;
      var pu := u.queue.(pending := u.queue.pending - {index});
      var pr := r.queue.(pending := r.queue.pending - {index});
      assert QueuesMeet(p.queue, pu, pr, n, index + 1) by {
        forall d: nat | d >= index + 1 ensures FiledAt(pu.pending, d) == Waiting(p.queue.log, d, n) + FiledAt(pr.pending, d) {
          assert FiledAt(u.queue.pending, d) == Waiting(p.queue.log, d, n) + FiledAt(r.queue.pending, d);
        }
      }
      DecideMeets(c, index, ViewOf(nu.book), p.queue, pu, pr, n, index + 1, |c.states[index]|);
      assert (p.books + r.books) + [nu.book] == p.books + (r.books + [nu.book]);
    }
  }

  lemma PendingIs(c: Config, book: Book, t: Trace, start: nat, now: nat)
    ensures TraceOk(c, book, t, start, now) ==>
              forall d: nat :: FiledAt(t.queue.pending, d) == Waiting(t.queue.log, d, now)
  {
    hide LogOk, Ran, Filed, Waiting, Aligned, Refused, TooLate;
  }

  lemma ResumeStarts(c: Config, book: Book, start: nat, n: nat)
    requires c.Valid() && start <= n <= |c.times| && book.Balanced() && book.Valid()
    requires RunTo(c, book, start, n).Success?
    ensures var p := RunTo(c, book, start, n).value;
            RunsMeet(p, p, Started(p.book), n, n) && RunTo(c, p.book, n, n) == Success(Started(p.book))
  {
    hide Waiting, TraceOk, RunTo;
    RunOk(c, book, start, n);
    var p := RunTo(c, book, start, n).value;
    PendingIs(c, book, p, start, n);
    NothingRun(c, p.book, n, n);
    forall d: nat | d >= n ensures FiledAt(p.queue.pending, d) == Waiting(p.queue.log, d, n) + FiledAt(EMPTY_QUEUE.pending, d) {
      assert FiledAt(p.queue.pending, d) == Waiting(p.queue.log, d, n);
    }
  }

  /** While nothing the first part filed comes due, the resumed run does what the uninterrupted one does. */
  lemma {:induction false} ResumeMeets(c: Config, book: Book, start: nat, n: nat, end: nat)
    requires c.Valid() && start <= n <= end <= |c.times| && book.Balanced() && book.Valid()
    requires RunTo(c, book, start, n).Success?
    requires forall d: nat | n <= d < end :: Waiting(RunTo(c, book, start, n).value.queue.log, d, n) == []
    ensures var p, u := RunTo(c, book, start, n).value, RunTo(c, book, start, end);
            var r := RunTo(c, p.book, n, end);
            (u.Success? <==> r.Success?) && (u.Success? ==> RunsMeet(p, u.value, r.value, n, end))
    decreases end - n
  {
    hide Step, Waiting, RunsMeet;
    if end == n {
      ResumeStarts(c, book, start, n);
    } else {
      ResumeMeets(c, book, start, n, end - 1);
      var p, u := RunTo(c, book, start, n).value, RunTo(c, book, start, end - 1);
      var r := RunTo(c, p.book, n, end - 1);
      if u.Success? {
        StepMeets(c, p, u.value, r.value, n, end - 1);
      }
    }
  }

  /** Up to `end` the two parts together are the uninterrupted run. */
  ghost predicate ResumesTo(c: Config, book: Book, start: nat, n: nat, end: nat)
    requires c.Valid() && n <= |c.times| && end <= |c.times|
  {
    var p, u := RunTo(c, book, start, n), RunTo(c, book, start, end);
    && p.Success? && u.Success?
    && var r := RunTo(c, p.value.book, n, end);
       r.Success? && u.value.book == r.value.book && u.value.outcomes == p.value.outcomes + r.value.outcomes
  }

  lemma {:induction false} NothingWaiting(log: seq<Approval>, n: nat, d: nat)
    requires d >= n
    ensures Waiting(log, d, n) == [] <==> forall a | a in log :: a.due != d
  {
    if log != [] {
      var before, last := log[..|log| - 1], log[|log| - 1];
      NothingWaiting(before, n, d);
      assert log == before + [last] && last in log;
    }
  }

  lemma TraceShape(c: Config, book: Book, t: Trace, start: nat, now: nat)
    requires TraceOk(c, book, t, start, now) && start <= now
    ensures |t.books| == now - start && t.book.openingCash == book.openingCash && t.book.Balanced() && t.book.Valid()
  {
    hide QueueOk, Ran, Filed, Aligned;
  }

  /** What one step answers is as many outcomes as were filed under it. */
  lemma StepCount(c: Config, t: Trace, index: nat)
    requires c.Valid() && index < |c.times| && t.book.Balanced() && t.book.Valid() && Step(c, t, index).Success?
    ensures |Step(c, t, index).value.outcomes| == |t.outcomes| + |FiledAt(t.queue.pending, index)|
  {
    ExecuteOk(c, c.states[index], t.book, FiledAt(t.queue.pending, index));
  }

  lemma LostAt(c: Config, book: Book, start: nat, n: nat, p: Trace, d: nat)
    requires c.Valid() && start <= n <= d < |c.times| && book.Balanced() && book.Valid()
    requires RunTo(c, book, start, n) == Success(p) && RunTo(c, book, start, d + 1).Success?
    requires Waiting(p.queue.log, d, n) != [] && forall e: nat | n <= e < d :: Waiting(p.queue.log, e, n) == []
    ensures !ResumesTo(c, book, start, n, d + 1)
  {
    hide Step, Waiting, TraceOk;
    RunExtends(c, book, start, d, d + 1);
    ResumeMeets(c, book, start, n, d);
    var u := RunTo(c, book, start, d).value;
    var r := RunTo(c, p.book, n, d).value;
    RunOk(c, book, start, d);
    TraceShape(c, book, u, start, d);
    StepCount(c, u, d);
    if Step(c, r, d).Success? {
      StepCount(c, r, d);
    }
    assert |FiledAt(u.queue.pending, d)| == |Waiting(p.queue.log, d, n)| + |FiledAt(r.queue.pending, d)|;
  }

  ghost predicate InFlight(log: seq<Approval>, n: nat) {
    exists a | a in log :: a.due >= n
  }

  lemma {:induction false} FirstInFlight(log: seq<Approval>, n: nat, bound: nat) returns (d: nat)
    requires exists a | a in log :: n <= a.due <= bound
    ensures n <= d <= bound && Waiting(log, d, n) != []
    ensures forall e: nat | n <= e < d :: Waiting(log, e, n) == []
    decreases bound
  {
    hide Waiting;
    if a :| a in log && n <= a.due < bound {
      d := FirstInFlight(log, n, bound - 1);
    } else {
      d := bound;
      NothingWaiting(log, n, bound);
      forall e: nat | n <= e < bound ensures Waiting(log, e, n) == [] {
        NothingWaiting(log, n, e);
      }
    }
  }

  /** A run that completes can be stopped before step `n` and resumed with its ledger, agreeing with itself at every
      later step, exactly if no approval made before `n` was due from `n` on. Each of those is lost. */
  lemma ResumeExactly(c: Config, book: Book, start: nat, n: nat)
    requires c.Valid() && start <= n <= |c.times| && book.Balanced() && book.Valid()
    requires RunTo(c, book, start, |c.times|).Success?
    ensures forall end | n <= end <= |c.times| :: RunTo(c, book, start, end).Success?
    ensures (forall end | n <= end <= |c.times| :: ResumesTo(c, book, start, n, end))
              <==> !InFlight(RunTo(c, book, start, n).value.queue.log, n)
  {
    hide RunTo, Waiting, TraceOk, QueuesMeet;
    forall end | n <= end <= |c.times| ensures RunTo(c, book, start, end).Success? {
      RunExtends(c, book, start, end, |c.times|);
    }
    var p := RunTo(c, book, start, n).value;
    if InFlight(p.queue.log, n) {
      RunOk(c, book, start, n);
      var a :| a in p.queue.log && a.due >= n;
      var i :| 0 <= i < |p.queue.log| && p.queue.log[i] == a;
      ApprovalAt(c, book, p, start, n, i);
      DueWithinTimeline(c, a, start, n);
      var d := FirstInFlight(p.queue.log, n, a.due);
      LostAt(c, book, start, n, p, d);
    } else {
      forall d: nat | d >= n ensures Waiting(p.queue.log, d, n) == [] {
        NothingWaiting(p.queue.log, n, d);
      }
      forall end | n <= end <= |c.times| ensures ResumesTo(c, book, start, n, end) {
        ResumeMeets(c, book, start, n, end);
      }
    }
  }

  lemma {:induction false} ReadingsInTwo(c: Config, start: nat, first: seq<Book>, second: seq<Book>)
    requires start + |first| + |second| <= |c.states|
    ensures Readings(c, start, first + second) == Readings(c, start, first) + Readings(c, start + |first|, second)
    decreases |second|
  {
    hide Equity;
    if second == [] {
      assert first + second == first;
    } else {
      var k := |first + second| - 1;
      assert (first + second)[..k] == first + second[..|second| - 1];
      ReadingsInTwo(c, start, first, second[..|second| - 1]);
    }
  }

  /** Where it does agree, a resumed run's drawdown does not: it starts again from opening cash. The uninterrupted run
      reports the larger of the first part's drawdown and the second's from the first's peak; the resumed run reports
      the second's from opening cash, which is no more. */
  lemma ResumedDrawdown(c: Config, book: Book, start: nat, n: nat, end: nat)
    requires c.Valid() && start <= n <= end <= |c.times| && book.Balanced() && book.Valid()
    requires RunTo(c, book, start, n).Success? && RunTo(c, book, start, end).Success?
    requires !InFlight(RunTo(c, book, start, n).value.queue.log, n)
    ensures var p, u := RunTo(c, book, start, n).value, RunTo(c, book, start, end).value;
            var r := RunTo(c, p.book, n, end);
            && r.Success? && p.book.openingCash == book.openingCash
            && |p.books| == n - start && |u.books| == end - start && |r.value.books| == end - n
            && var first, second := Readings(c, start, p.books), Readings(c, n, r.value.books);
               var whole := Drawdown(book.openingCash, Readings(c, start, u.books));
               && whole == Drawdowns.Max(Drawdown(book.openingCash, first),
                                         Drawdown(Peak(book.openingCash, first), second))
               && Drawdown(p.book.openingCash, second) <= whole
  {
    hide RunTo, Waiting, QueuesMeet, Readings, Drawdown, Peak, Drawdowns.Max, TraceOk;
    var p, u := RunTo(c, book, start, n).value, RunTo(c, book, start, end).value;
    forall d: nat | n <= d < end ensures Waiting(p.queue.log, d, n) == [] {
      NothingWaiting(p.queue.log, n, d);
    }
    RunOk(c, book, start, n);
    RunOk(c, book, start, end);
    TraceShape(c, book, p, start, n);
    TraceShape(c, book, u, start, end);
    ResumeMeets(c, book, start, n, end);
    var r := RunTo(c, p.book, n, end).value;
    RunOk(c, p.book, n, end);
    TraceShape(c, p.book, r, n, end);
    ReadingsInTwo(c, start, p.books, r.books);
    DrawdownInTwo(book.openingCash, Readings(c, start, p.books), Readings(c, n, r.books));
  }
}
