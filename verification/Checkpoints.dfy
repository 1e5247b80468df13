// Checkpoints: market states kept under their full identity and reused in place of
// a rebuild. A checkpoint is a materialization, never the truth.

module Checkpoints {
  import opened Wrappers
  import opened Observations

  datatype Identity = Identity(underlying: int, marketTime: int, horizon: int, context: int)

  /** `content` stands for all that the content digest covers; `assembledAt` is outside it. */
  datatype MarketState = MarketState(identity: Identity, content: int, assembledAt: int)

  datatype Trigger = Cadence | ChainSnapshot | SessionBoundary | QualityTransition | Manual

  datatype Checkpoint = Checkpoint(state: MarketState, trigger: Trigger, builtAt: int)

  /** `universe` gives what a build reads, in order; `assemble` turns the answers into a state's content. */
  datatype Builder = Builder(
    context: int,
    universe: (int, int) -> seq<Query>,
    assemble: (int, int, seq<Option<Row>>) -> int)

  datatype Request = Request(underlying: int, marketTime: int, horizon: Option<int>) {
    function Horizon(): int {
      if horizon.Some? then horizon.value else marketTime
    }
  }

  function IdentityOf(builder: Builder, r: Request): Identity {
    Identity(r.underlying, r.marketTime, r.Horizon(), builder.context)
  }

  // ----------------------------------------------------------------- building

  function Reads(rows: seq<Row>, b: ResolvedBound, queries: seq<Query>): seq<Option<Row>> {
    if queries == [] then [] else
      Reads(rows, b, queries[..|queries| - 1]) + [Latest(rows, b, queries[|queries| - 1])]
  }

  function Content(builder: Builder, rows: seq<Row>, id: Identity): int {
    builder.assemble(id.underlying, id.marketTime,
                     Reads(rows, Resolved(id.marketTime, id.horizon), builder.universe(id.underlying, id.marketTime)))
  }

  function Build(builder: Builder, rows: seq<Row>, r: Request, now: int): MarketState {
    var id := IdentityOf(builder, r);
    MarketState(id, Content(builder, rows, id), now)
  }

  lemma {:induction false} SameReads(b: ResolvedBound, rows: seq<Row>, other: seq<Row>, queries: seq<Query>)
    requires SameVisible(b, rows, other)
    ensures Reads(rows, b, queries) == Reads(other, b, queries)
  {
    hide SameVisible, Latest;
    if queries != [] {
      SameReads(b, rows, other, queries[..|queries| - 1]);
      VisibleRowsDecide(b, rows, other, queries[|queries| - 1]);
    }
  }

  /** A build at (T, K) knows nothing but the rows observed by T and ingested by K. */
  lemma BuildKnowsOnlyItsHorizon(builder: Builder, rows: seq<Row>, other: seq<Row>, id: Identity)
    requires SameVisible(Resolved(id.marketTime, id.horizon), rows, other)
    ensures Content(builder, rows, id) == Content(builder, other, id)
  {
    hide SameVisible;
    SameReads(Resolved(id.marketTime, id.horizon), rows, other, builder.universe(id.underlying, id.marketTime));
  }

  /** Whatever is ingested after K leaves every build at K as it was. */
  lemma LateRowsChangeNothing(builder: Builder, rows: seq<Row>, more: seq<Row>, id: Identity)
    requires forall r | r in more :: r.ingestedAt > id.horizon
    ensures Content(builder, rows + more, id) == Content(builder, rows, id)
  {
    hide SameVisible, Content;
    var b := Resolved(id.marketTime, id.horizon);
    forall i | 0 <= i < |more| ensures !Admits(b, more[i]) {
      assert more[i] in more;
    }
    AppendedVisibleIff(b, rows, more);
    BuildKnowsOnlyItsHorizon(builder, rows, rows + more, id);
  }

  lemma {:induction false} ReadsAnswer(rows: seq<Row>, queries: seq<Query>, marketTime: int, horizon: int)
    ensures var answers := Reads(rows, Resolved(marketTime, horizon), queries);
            && |answers| == |queries|
            && forall i | 0 <= i < |queries| :: IsAnswer(rows, queries[i], marketTime, horizon, answers[i])
  {
    hide IsAnswer, Latest, Resolved;
    if queries != [] {
      ReadsAnswer(rows, queries[..|queries| - 1], marketTime, horizon);
      AnswerIsNewestKnown(rows, queries[|queries| - 1], marketTime, horizon);
    }
  }

  /** `content` is what the builder assembles of the answers to all it reads, each the newest known at T and K. */
  ghost predicate AssembledFrom(
    builder: Builder, rows: seq<Row>, underlying: int, marketTime: int, horizon: int, content: int)
  {
    var queries := builder.universe(underlying, marketTime);
    exists answers: seq<Option<Row>> ::
      && |answers| == |queries| && content == builder.assemble(underlying, marketTime, answers)
      && forall i | 0 <= i < |queries| :: IsAnswer(rows, queries[i], marketTime, horizon, answers[i])
  }

  lemma ContentIsAssembled(builder: Builder, rows: seq<Row>, id: Identity)
    ensures AssembledFrom(builder, rows, id.underlying, id.marketTime, id.horizon, Content(builder, rows, id))
  {
    hide IsAnswer, Resolved, Reads;
    ReadsAnswer(rows, builder.universe(id.underlying, id.marketTime), id.marketTime, id.horizon);
  }

  /** A build carries what it was asked for, the market time being the knowledge horizon where none was asked for, and is
      assembled from the answers at just those times. */
  lemma BuildHonoursRequest(builder: Builder, rows: seq<Row>, r: Request, now: int)
    ensures var state, horizon := Build(builder, rows, r, now), if r.horizon.Some? then r.horizon.value else r.marketTime;
            && state.identity == Identity(r.underlying, r.marketTime, horizon, builder.context)
            && AssembledFrom(builder, rows, r.underlying, r.marketTime, horizon, state.content)
            && state.assembledAt == now
  {
    hide AssembledFrom, Content;
    ContentIsAssembled(builder, rows, IdentityOf(builder, r));
  }

  /** Two logs that hold, under the same numbers, the same rows ingested by the horizon asked for and observed by the market
      time, whatever else they hold, build the same. */
  lemma BuildIgnoresTheRest(builder: Builder, rows: seq<Row>, other: seq<Row>, r: Request, now: int)
    requires var horizon := if r.horizon.Some? then r.horizon.value else r.marketTime;
             forall i: nat ::
               && (i < |rows| && rows[i].ingestedAt <= horizon && rows[i].observedAt <= r.marketTime ==>
                     i < |other| && rows[i] == other[i])
               && (i < |other| && other[i].ingestedAt <= horizon && other[i].observedAt <= r.marketTime ==>
                     i < |rows| && rows[i] == other[i])
    ensures Build(builder, rows, r, now) == Build(builder, other, r, now)
  {
    hide Content, Resolved, Admits;
    var id := IdentityOf(builder, r);
    var b := Resolved(id.marketTime, id.horizon);
    assert SameVisible(b, rows, other) by {
      forall i: nat
        ensures i < |rows| && Admits(b, rows[i]) <==> i < |other| && Admits(b, other[i])
        ensures i < |rows| && Admits(b, rows[i]) ==> rows[i] == other[i]
      {
        if i < |rows| { BoundAdmitsExactly(id.marketTime, id.horizon, rows[i]); }
        if i < |other| { BoundAdmitsExactly(id.marketTime, id.horizon, other[i]); }
      }
    }
    BuildKnowsOnlyItsHorizon(builder, rows, other, id);
  }

  // -------------------------------------------------------------------- a store

  datatype Store = Store(byIdentity: map<Identity, Checkpoint>, skipped: nat)

  /** Store unless what is there has the same content; whether it was written. */
  function Put(s: Store, c: Checkpoint): (Store, bool) {
    var id := c.state.identity;
    if id in s.byIdentity && s.byIdentity[id].state.content == c.state.content then
      (s.(skipped := s.skipped + 1), false)
    else
      (s.(byIdentity := s.byIdentity[id := c]), true)
  }

  /** What is stored is found under its identity; storing the same content again changes only the count of skipped ones. */
  lemma StoringAgainIsSkipped(s: Store, c: Checkpoint, again: Checkpoint)
    requires again.state.identity == c.state.identity && again.state.content == c.state.content
    ensures var (after, written) := Put(s, c);
            && c.state.identity in after.byIdentity
            && after.byIdentity[c.state.identity].state.content == c.state.content
            && (written ==> after.byIdentity[c.state.identity] == c)
            && Put(after, again) == (after.(skipped := after.skipped + 1), false)
            && forall id | id != c.state.identity ::
                 id in after.byIdentity <==> id in s.byIdentity
  {
  }

  // ----------------------------------------------------------------- a service

  /** A service with or without a store, caching its reconstructions or not. */
  datatype Service = Service(builder: Builder, storing: bool, caching: bool)

  /** The log, the store and the counters. */
  datatype World = World(rows: seq<Row>, store: Store, reused: nat, reconstructed: nat)

  const EMPTY := World([], Store(map[], 0), 0, 0)

  datatype Event =
    | Ingest(batch: seq<Row>)
    | Get(request: Request, now: int)
    | Materialize(request: Request, trigger: Trigger, now: int)

  function GetState(s: Service, w: World, r: Request, now: int): (World, MarketState) {
    var id := IdentityOf(s.builder, r);
    if s.storing && id in w.store.byIdentity then
      (w.(reused := w.reused + 1), w.store.byIdentity[id].state)
    else
      var state := Build(s.builder, w.rows, r, now);
      var after := w.(reconstructed := w.reconstructed + 1);
      if s.caching && s.storing then
        (after.(store := Put(w.store, Checkpoint(state, Manual, state.assembledAt)).0), state)
      else
        (after, state)
  }

  /** Build and persist; an error without a store. */
  function Materialized(s: Service, w: World, r: Request, trigger: Trigger, now: int): (World, Option<Checkpoint>) {
    if !s.storing then (w, None) else
      var state := Build(s.builder, w.rows, r, now);
      var c := Checkpoint(state, trigger, state.assembledAt);
      (w.(store := Put(w.store, c).0), Some(c))
  }

  function Step(s: Service, w: World, e: Event): World {
    match e
    case Ingest(batch) => w.(rows := Appended(w.rows, batch))
    case Get(r, now) => GetState(s, w, r, now).0
    case Materialize(r, trigger, now) => Materialized(s, w, r, trigger, now).0
  }

  function Run(s: Service, events: seq<Event>): World {
    if events == [] then EMPTY else Step(s, Run(s, events[..|events| - 1]), events[|events| - 1])
  }

  // ------------------------------------------------- what the cache really holds

  /** The log after a run, whatever was asked meanwhile. */
  function Log(events: seq<Event>): seq<Row> {
    if events == [] then [] else
      var before, last := Log(events[..|events| - 1]), events[|events| - 1];
      if last.Ingest? then Appended(before, last.batch) else before
  }

  /** The event builds this identity for the store, unless a get finds it there. */
  predicate Builds(s: Service, e: Event, id: Identity) {
    && s.storing
    && !e.Ingest? && IdentityOf(s.builder, e.request) == id
    && (e.Get? ==> s.caching)
  }

  /** The log from which an identity was last built for the store: at its last materialization, or, with none
      before it, at the first get that cached it. */
  function BuiltFrom(s: Service, events: seq<Event>, id: Identity): Option<seq<Row>> {
    if events == [] then None else
      var earlier, last := events[..|events| - 1], events[|events| - 1];
      var before := BuiltFrom(s, earlier, id);
      if Builds(s, last, id) && (last.Materialize? || before.None?) then Some(Log(earlier)) else before
  }

  ghost predicate Holds(s: Service, w: World, id: Identity, from: Option<seq<Row>>) {
    && (id in w.store.byIdentity <==> from.Some?)
    && (from.Some? ==>
          && w.store.byIdentity[id].state.identity == id
          && w.store.byIdentity[id].state.content == Content(s.builder, from.value, id))
  }

  lemma PutHolds(s: Service, w: World, r: Request, trigger: Trigger, now: int, id: Identity, from: Option<seq<Row>>)
    requires Holds(s, w, id, from)
    ensures var state := Build(s.builder, w.rows, r, now);
            var after := w.(store := Put(w.store, Checkpoint(state, trigger, state.assembledAt)).0);
            Holds(s, after, id, if IdentityOf(s.builder, r) == id then Some(w.rows) else from)
  {
  }

  /** At every point of every run the store holds, for each identity, the content of the build that last wrote it,
      skipped duplicates included; nothing else is in it. */
  lemma {:induction false} CacheIsLastBuild(s: Service, events: seq<Event>, id: Identity)
    ensures Run(s, events).rows == Log(events)
    ensures Holds(s, Run(s, events), id, BuiltFrom(s, events, id))
  {
    hide Holds, Put, Content, Build, Appended;
    if events == [] {
      NothingHeld(s, id);
    } else {
      var earlier, last := events[..|events| - 1], events[|events| - 1];
      CacheIsLastBuild(s, earlier, id);
      var w, from := Run(s, earlier), BuiltFrom(s, earlier, id);
      HeldWhatever(s, w, Run(s, events), id, from);
      match last
      case Ingest(_) =>
      case Get(r, now) =>
        PutHolds(s, w, r, Manual, now, id, from);
        GetHolds(s, w, r, now, id, from);
      case Materialize(r, trigger, now) => PutHolds(s, w, r, trigger, now, id, from);
    }
  }

  lemma NothingHeld(s: Service, id: Identity)
    ensures Holds(s, EMPTY, id, None)
  {
  }

  lemma HeldWhatever(s: Service, w: World, other: World, id: Identity, from: Option<seq<Row>>)
    ensures Holds(s, w, id, from) ==>
              other.store == w.store ==> Holds(s, other, id, from)
  {
  }

  lemma GetHolds(s: Service, w: World, r: Request, now: int, id: Identity, from: Option<seq<Row>>)
    ensures Holds(s, w, id, from) ==>
              Holds(s, GetState(s, w, r, now).0, id,
                    if Builds(s, Get(r, now), id) && from.None? then Some(w.rows) else from)
  {
  }

  /** The answer to a get: the build from the log its identity was last built from, else a build now. */
  lemma GetAnswers(s: Service, events: seq<Event>, r: Request, now: int)
    ensures var id := IdentityOf(s.builder, r);
            var from, state := BuiltFrom(s, events, id), GetState(s, Run(s, events), r, now).1;
            && state.identity == id
            && state.content == Content(s.builder, if from.Some? then from.value else Log(events), id)
            && GetState(s, Run(s, events), r, now).0.reused == Run(s, events).reused + if from.Some? then 1 else 0
  {
    hide Content, BuiltFrom, Run, Log;
    CacheIsLastBuild(s, events, IdentityOf(s.builder, r));
    NoStoreNothingBuilt(s, events, IdentityOf(s.builder, r));
  }

  /** At every point of every run a get or a materialization answers for what was asked: the underlying, the market time,
      the knowledge horizon asked for (the market time where none was) and the build context; and from what that horizon
      knew of some log the run has had. */
  lemma RequestsAreHonoured(s: Service, events: seq<Event>, r: Request, trigger: Trigger, now: int)
    ensures var horizon := if r.horizon.Some? then r.horizon.value else r.marketTime;
            var id := Identity(r.underlying, r.marketTime, horizon, s.builder.context);
            var state, made := GetState(s, Run(s, events), r, now).1, Materialized(s, Run(s, events), r, trigger, now).1;
            && state.identity == id
            && (exists n: nat :: n <= |events|
                  && AssembledFrom(s.builder, Log(events[..n]), r.underlying, r.marketTime, horizon, state.content))
            && (made.Some? <==> s.storing)
            && (made.Some? ==>
                  && made.value.state.identity == id && made.value.trigger == trigger
                  && AssembledFrom(s.builder, Log(events), r.underlying, r.marketTime, horizon, made.value.state.content))
  {
    hide Content, BuiltFrom, Run, Log, AssembledFrom, GetState, Put;
    var id := IdentityOf(s.builder, r);
    GetAnswers(s, events, r, now);
    CacheIsLastBuild(s, events, id);
    BuildHonoursRequest(s.builder, Log(events), r, now);
    assert events[..|events|] == events;
    var n := |events|;
    if BuiltFrom(s, events, id).Some? { n := BuiltAt(s, events, id); }
    ContentIsAssembled(s.builder, Log(events[..n]), id);
  }

  lemma BuiltAt(s: Service, events: seq<Event>, id: Identity) returns (n: nat)
    requires BuiltFrom(s, events, id).Some?
    ensures n < |events| && BuiltFrom(s, events, id).value == Log(events[..n])
  {
    BuiltSomewhere(s, events, id);
    n :| 0 <= n < |events| && BuiltFrom(s, events, id).value == Log(events[..n]) && Builds(s, events[n], id);
  }

  lemma {:induction false} NoStoreNothingBuilt(s: Service, events: seq<Event>, id: Identity)
    ensures !s.storing ==> BuiltFrom(s, events, id).None?
  {
    if events != [] {
      NoStoreNothingBuilt(s, events[..|events| - 1], id);
    }
  }

  // ------------------------------------------------------ agreement with rebuild

  lemma {:induction false} LogGrows(events: seq<Event>, n: nat)
    requires n <= |events|
    ensures Log(events[..n]) <= Log(events)
  {
    if n < |events| {
      var earlier, last := events[..|events| - 1], events[|events| - 1];
      assert earlier[..n] == events[..n];
      LogGrows(earlier, n);
      if last.Ingest? {
        AppendedKeeps(Log(earlier), last.batch);
      }
    } else {
      assert events[..n] == events;
    }
  }

  /** No row added to the log after a build for the store had been ingested by that build's horizon. */
  ghost predicate Timely(s: Service, events: seq<Event>) {
    forall i, k | 0 <= i < |events| && !events[i].Ingest? && |Log(events[..i])| <= k < |Log(events)|
                    && Builds(s, events[i], IdentityOf(s.builder, events[i].request)) ::
      Log(events)[k].ingestedAt > events[i].request.Horizon()
  }

  lemma {:induction false} BuiltSomewhere(s: Service, events: seq<Event>, id: Identity)
    requires BuiltFrom(s, events, id).Some?
    ensures exists i | 0 <= i < |events| ::
              BuiltFrom(s, events, id).value == Log(events[..i]) && Builds(s, events[i], id)
  {
    var earlier, last := events[..|events| - 1], events[|events| - 1];
    if Builds(s, last, id) && (last.Materialize? || BuiltFrom(s, earlier, id).None?) {
      assert Log(events[..|events| - 1]) == Log(earlier) && events[|events| - 1] == last;
    } else {
      BuiltSomewhere(s, earlier, id);
      var i :| 0 <= i < |earlier| && BuiltFrom(s, earlier, id).value == Log(earlier[..i]) && Builds(s, earlier[i], id);
      assert earlier[..i] == events[..i];
    }
  }

  /** Over any interleaving of ingestion, materialization and gets in which late rows are stamped as late, a get
      returns what a fresh build would, whether it comes from the store or not. */
  lemma CacheAgreesWithRebuild(s: Service, events: seq<Event>, r: Request, now: int)
    requires Timely(s, events)
    ensures var rebuilt, state := Build(s.builder, Log(events), r, now), GetState(s, Run(s, events), r, now).1;
            state.identity == rebuilt.identity && state.content == rebuilt.content
  {
    hide Content, BuiltFrom, Run, Log, GetState, Timely;
    var id := IdentityOf(s.builder, r);
    GetAnswers(s, events, r, now);
    if BuiltFrom(s, events, id).Some? {
      BuiltSomewhere(s, events, id);
      var i :| 0 <= i < |events| && BuiltFrom(s, events, id).value == Log(events[..i]) && Builds(s, events[i], id);
      LogGrows(events, i);
      LateSince(s, events, i);
      var earlier := Log(events[..i]);
      var more := Log(events)[|earlier|..];
      assert Log(events) == earlier + more;
      LateRowsChangeNothing(s.builder, earlier, more, id);
    }
  }

  lemma LateSince(s: Service, events: seq<Event>, i: nat)
    requires i < |events| && !events[i].Ingest? && Builds(s, events[i], IdentityOf(s.builder, events[i].request))
    requires Timely(s, events) && |Log(events[..i])| <= |Log(events)|
    ensures forall row | row in Log(events)[|Log(events[..i])|..] :: row.ingestedAt > events[i].request.Horizon()
  {
  }

  /** Materializing again brings a stale entry up to date, whatever had been missed. */
  lemma MaterializingRepairs(s: Service, events: seq<Event>, r: Request, trigger: Trigger, at: int, now: int)
    requires s.storing
    ensures var after := events + [Materialize(r, trigger, at)];
            GetState(s, Run(s, after), r, now).1.content == Content(s.builder, Log(after), IdentityOf(s.builder, r))
  {
    hide Content, Run, GetState;
    var after := events + [Materialize(r, trigger, at)];
    assert after[..|after| - 1] == events;
    GetAnswers(s, after, r, now);
  }

  /** Every get is a reuse or a reconstruction. */
  function Gets(events: seq<Event>): nat {
    if events == [] then 0 else
      Gets(events[..|events| - 1]) + if events[|events| - 1].Get? then 1 else 0
  }

  lemma {:induction false} GetsAreCounted(s: Service, events: seq<Event>)
    ensures Run(s, events).reused + Run(s, events).reconstructed == Gets(events)
    ensures !s.storing ==> Run(s, events).reused == 0
  {
    hide Put, Build, Appended;
    if events != [] {
      GetsAreCounted(s, events[..|events| - 1]);
    }
  }

  // ------------------------------------------------------- when an answer is stale

  function Assembling(s: Service, assemble: (int, int, seq<Option<Row>>) -> int): Service {
    s.(builder := s.builder.(assemble := assemble))
  }

  /** The answer to a get is a fresh build's, were contents assembled in this way. */
  ghost predicate AgreesUnder(
    s: Service, assemble: (int, int, seq<Option<Row>>) -> int, events: seq<Event>, r: Request, now: int)
  {
    var t := Assembling(s, assemble);
    GetState(t, Run(t, events), r, now).1.content == Build(t.builder, Log(events), r, now).content
  }

  lemma {:induction false} BuiltFromSame(
    s: Service, assemble: (int, int, seq<Option<Row>>) -> int, events: seq<Event>, id: Identity)
    ensures BuiltFrom(Assembling(s, assemble), events, id) == BuiltFrom(s, events, id)
  {
    hide Log;
    if events != [] {
      BuiltFromSame(s, assemble, events[..|events| - 1], id);
    }
  }

  function ReadsFor(s: Service, rows: seq<Row>, id: Identity): seq<Option<Row>> {
    Reads(rows, Resolved(id.marketTime, id.horizon), s.builder.universe(id.underlying, id.marketTime))
  }

  lemma AgreesUnderIs(
    s: Service, assemble: (int, int, seq<Option<Row>>) -> int, events: seq<Event>, r: Request, now: int)
    requires BuiltFrom(s, events, IdentityOf(s.builder, r)).Some?
    ensures var id := IdentityOf(s.builder, r);
            AgreesUnder(s, assemble, events, r, now) <==>
              assemble(id.underlying, id.marketTime, ReadsFor(s, BuiltFrom(s, events, id).value, id))
                == assemble(id.underlying, id.marketTime, ReadsFor(s, Log(events), id))
  {
    hide Reads, BuiltFrom, Run, Log, GetState;
    BuiltFromSame(s, assemble, events, IdentityOf(s.builder, r));
    GetAnswers(Assembling(s, assemble), events, r, now);
  }

  /** Whatever the assembly makes of them, the answer stays right exactly while the reads stay the same. */
  lemma AgreesIffSameReads(s: Service, events: seq<Event>, r: Request, now: int)
    requires BuiltFrom(s, events, IdentityOf(s.builder, r)).Some?
    ensures var id := IdentityOf(s.builder, r);
            (forall assemble :: AgreesUnder(s, assemble, events, r, now)) <==>
              ReadsFor(s, BuiltFrom(s, events, id).value, id) == ReadsFor(s, Log(events), id)
  {
    hide AgreesUnder, ReadsFor, BuiltFrom, Log;
    var id := IdentityOf(s.builder, r);
    var before := ReadsFor(s, BuiltFrom(s, events, id).value, id);
    forall assemble ensures before == ReadsFor(s, Log(events), id) ==> AgreesUnder(s, assemble, events, r, now) {
      AgreesUnderIs(s, assemble, events, r, now);
    }
    var tell := (u: int, t: int, answers: seq<Option<Row>>) => if answers == before then 1 else 0;
    AgreesUnderIs(s, tell, events, r, now);
  }

  lemma {:induction false} SameReadsIff(b: ResolvedBound, rows: seq<Row>, other: seq<Row>, queries: seq<Query>)
    ensures Reads(rows, b, queries) == Reads(other, b, queries) <==>
              forall q | q in queries :: Latest(rows, b, q) == Latest(other, b, q)
    ensures |Reads(rows, b, queries)| == |Reads(other, b, queries)|
  {
    hide Latest;
    if queries != [] {
      var n := |queries| - 1;
      SameReadsIff(b, rows, other, queries[..n]);
      var x, y := Reads(rows, b, queries), Reads(other, b, queries);
      assert x == y ==> x[..|x| - 1] == y[..|y| - 1];
      assert queries == queries[..n] + [queries[n]];
    }
  }

  lemma {:induction false} LogKeyed(events: seq<Event>)
    ensures Keyed(Log(events))
  {
    if events != [] {
      LogKeyed(events[..|events| - 1]);
      if events[|events| - 1].Ingest? {
        AppendedKeeps(Log(events[..|events| - 1]), events[|events| - 1].batch);
      }
    }
  }

  lemma BuiltFromPrefix(s: Service, events: seq<Event>, id: Identity)
    requires BuiltFrom(s, events, id).Some?
    ensures BuiltFrom(s, events, id).value <= Log(events)
  {
    hide Builds, Log, BuiltFrom;
    BuiltSomewhere(s, events, id);
    var i :| 0 <= i < |events| && BuiltFrom(s, events, id).value == Log(events[..i]) && Builds(s, events[i], id);
    LogGrows(events, i);
  }

  /** Exactly when a stored answer has gone stale: of the rows logged since it was built, one that the bound admits and
      the universe asks for is live and no earlier than what its query read then, or corrects it. Rows for other
      instruments, older ones and ones ingested after K do not matter, however late or early they are logged. */
  lemma StaleExactly(s: Service, events: seq<Event>, r: Request, now: int)
    requires BuiltFrom(s, events, IdentityOf(s.builder, r)).Some?
    ensures var id := IdentityOf(s.builder, r);
            var from, log := BuiltFrom(s, events, id).value, Log(events);
            var b := Resolved(id.marketTime, id.horizon);
            && from <= log
            && ((forall assemble :: AgreesUnder(s, assemble, events, r, now)) <==>
                  forall q | q in s.builder.universe(id.underlying, id.marketTime) :: Unmoved(from, log, b, q))
  {
    hide AgreesUnder, BuiltFrom, Log, Latest, Unmoved, Reads, Keyed;
    var id := IdentityOf(s.builder, r);
    var from, log := BuiltFrom(s, events, id).value, Log(events);
    var b, queries := Resolved(id.marketTime, id.horizon), s.builder.universe(id.underlying, id.marketTime);
    AgreesIffSameReads(s, events, r, now);
    SameReadsIff(b, from, log, queries);
    BuiltFromPrefix(s, events, id);
    LogKeyed(events);
    var more := log[|from|..];
    assert log == from + more;
    forall q | q in queries
      ensures Latest(from, b, q) == Latest(log, b, q) <==> Unmoved(from, log, b, q)
    {
      AnswerChangesExactly(from, more, b, q);
    }
  }

  // ------------------------------------------------------------------ the classes

  class InMemoryCheckpointStore {
    var byIdentity: map<Identity, Checkpoint>
    var skipped: nat

    function Contents(): Store
      reads this
    {
      Store(byIdentity, skipped)
    }

    constructor ()
      ensures Contents() == Store(map[], 0)
    {
      byIdentity, skipped := map[], 0;
    }

    /** Exact match on the whole identity, or nothing. */
    method Lookup(id: Identity) returns (hit: Option<Checkpoint>)
      ensures hit.Some? <==> id in byIdentity
      ensures hit.Some? ==> hit.value == byIdentity[id]
    {
      return if id in byIdentity then Some(byIdentity[id]) else None;
    }

    method Save(c: Checkpoint) returns (written: bool)
      modifies this
      ensures (Contents(), written) == Put(old(Contents()), c)
    {
      var id := c.state.identity;
      if id in byIdentity && byIdentity[id].state.content == c.state.content {
        skipped := skipped + 1;
        return false;
      }
      byIdentity := byIdentity[id := c];
      return true;
    }
  }

  class StateService {
    const builder: Builder
    const observations: ObservationStore
    const store: InMemoryCheckpointStore?
    const caching: bool
    var reused: nat
    var reconstructed: nat

    function Settings(): Service {
      Service(builder, store != null, caching)
    }

    ghost function Whole(): World
      reads this, observations, store
    {
      World(observations.rows, if store == null then EMPTY.store else store.Contents(), reused, reconstructed)
    }

    constructor (
      builder: Builder, observations: ObservationStore, store: InMemoryCheckpointStore?, caching: bool)
      ensures this.builder == builder && this.observations == observations && this.store == store
      ensures this.caching == caching && reused == 0 && reconstructed == 0
    {
      this.builder, this.observations, this.store, this.caching := builder, observations, store, caching;
      reused, reconstructed := 0, 0;
    }

    /** Assemble the state of a request from the log, every read under its one bound. */
    method BuildState(r: Request, now: int) returns (state: MarketState)
      ensures state == Build(builder, observations.rows, r, now)
    {
      var queries, b := builder.universe(r.underlying, r.marketTime), Resolved(r.marketTime, r.Horizon());
      var answers: seq<Option<Row>> := [];
      for i := 0 to |queries|
        invariant answers == Reads(observations.rows, b, queries[..i])
      {
        assert queries[..i + 1][..i] == queries[..i];
        var answer := observations.LatestUnder(b, queries[i]);
        answers := answers + [answer];
      }
      assert queries[..|queries|] == queries;
      return MarketState(IdentityOf(builder, r), builder.assemble(r.underlying, r.marketTime, answers), now);
    }

    /** An exact checkpoint if there is one, else a reconstruction. */
    method StateAt(r: Request, now: int) returns (state: MarketState)
      modifies this, store
      ensures (Whole(), state) == GetState(Settings(), old(Whole()), r, now)
    {
      if store != null {
        var hit := store.Lookup(IdentityOf(builder, r));
        if hit.Some? {
          reused := reused + 1;
          return hit.value.state;
        }
      }
      state := BuildState(r, now);
      reconstructed := reconstructed + 1;
      if caching && store != null {
        var _ := store.Save(Checkpoint(state, Manual, state.assembledAt));
      }
    }

    /** Build and persist; nothing, and no change, without a store. */
    method MakeCheckpoint(r: Request, trigger: Trigger, now: int) returns (c: Option<Checkpoint>)
      modifies store
      ensures (Whole(), c) == Materialized(Settings(), old(Whole()), r, trigger, now)
    {
      if store == null {
        return None;
      }
      var state := BuildState(r, now);
      c := Some(Checkpoint(state, trigger, state.assembledAt));
      var _ := store.Save(c.value);
    }
  }
}
