// Event application: at-least-once, unordered delivery made into exactly-once,
// in-order application by a sequence check and a transactional inbox.

module Events {
  import opened Wrappers

  /** An aggregate's events are numbered from 1; the original refuses lower numbers. */
  datatype Event = Event(id: int, aggregate: int, sequence: nat) {
    predicate Valid() {
      sequence >= 1
    }
  }

  datatype SequenceGap = SequenceGap(aggregate: int, expected: nat, got: nat)

  /** An event ahead of its turn is refused; one behind is a redelivery, and passes. */
  function CheckSequence(lastApplied: Option<nat>, e: Event): Option<SequenceGap> {
    var expected := if lastApplied.None? then 1 else lastApplied.value + 1;
    if e.sequence > expected then Some(SequenceGap(e.aggregate, expected, e.sequence)) else None
  }

  // ----------------------------------------------------------------- the inbox

  type Claim = (int, int)

  function ClaimOf(subscriber: int, e: Event): Claim {
    (subscriber, e.id)
  }

  datatype Outcome = Skipped | Returned | Raised

  /** Run a mutation at most once per subscriber and event: the claim stays exactly if the mutation, given by
      whether it raises, is run and does not. */
  function ApplyOnce(applied: set<Claim>, claim: Claim, raises: bool): (set<Claim>, Outcome) {
    if claim in applied then (applied, Skipped)
    else if raises then (applied, Raised)
    else (applied + {claim}, Returned)
  }

  // ---------------------------------------------------------------- a consumer

  datatype Delivery = Delivery(subscriber: int, event: Event, raises: bool)

  /** What the database holds: claims, each subscriber's last applied sequence per aggregate, and the applied log.
      The mutation writes the last two in the claim's transaction. */
  datatype Database = Database(
    applied: set<Claim>,
    last: map<(int, int), nat>,
    log: seq<(int, Event)>)

  const BLANK := Database({}, map[], [])

  datatype Handled = Deferred(gap: SequenceGap) | Inbox(outcome: Outcome)

  function LastApplied(db: Database, subscriber: int, aggregate: int): Option<nat> {
    if (subscriber, aggregate) in db.last then Some(db.last[(subscriber, aggregate)]) else None
  }

  function Handle(db: Database, d: Delivery): (Database, Handled) {
    var gap := CheckSequence(LastApplied(db, d.subscriber, d.event.aggregate), d.event);
    if gap.Some? then (db, Deferred(gap.value)) else
      var (applied, outcome) := ApplyOnce(db.applied, ClaimOf(d.subscriber, d.event), d.raises);
      if outcome.Returned? then
        var last := db.last[(d.subscriber, d.event.aggregate) := d.event.sequence];
        (Database(applied, last, db.log + [(d.subscriber, d.event)]), Inbox(outcome))
      else (db.(applied := applied), Inbox(outcome))
  }

  function RunFrom(db: Database, ds: seq<Delivery>): Database {
    if ds == [] then db else Handle(RunFrom(db, ds[..|ds| - 1]), ds[|ds| - 1]).0
  }

  /** The sequences a subscriber has applied for an aggregate, in the order it applied them. */
  function AppliedFor(log: seq<(int, Event)>, subscriber: int, aggregate: int): seq<nat> {
    if log == [] then [] else
      var (s, e) := log[|log| - 1];
      AppliedFor(log[..|log| - 1], subscriber, aggregate)
        + if s == subscriber && e.aggregate == aggregate then [e.sequence] else []
  }

  /** 1, 2, ..., k. */
  function UpTo(k: nat): seq<nat> {
    if k == 0 then [] else UpTo(k - 1) + [k]
  }

  lemma {:induction false} UpToIs(k: nat)
    ensures |UpTo(k)| == k && forall i | 0 <= i < k :: UpTo(k)[i] == i + 1
  {
    if k > 0 {
      UpToIs(k - 1);
    }
  }

  ghost predicate Numbered(events: set<Event>) {
    forall e | e in events :: e.Valid()
  }

  ghost predicate SamePlace(e: Event, f: Event) {
    e.aggregate == f.aggregate && e.sequence == f.sequence
  }

  ghost predicate OneIdPerPlace(events: set<Event>) {
    forall e, f | e in events && f in events && SamePlace(e, f) :: e.id == f.id
  }

  ghost predicate OnePlacePerId(events: set<Event>) {
    forall e, f | e in events && f in events && e.id == f.id :: SamePlace(e, f)
  }

  /** Event ids name events. */
  ghost predicate Bijective(events: set<Event>) {
    Numbered(events) && OneIdPerPlace(events) && OnePlacePerId(events)
  }

  ghost predicate Has(events: set<Event>, aggregate: int, k: nat) {
    exists e | e in events :: e.aggregate == aggregate && e.sequence == k
  }

  /** Nothing is missing before the place: without that it is never an event's turn there. */
  ghost predicate Reachable(events: set<Event>, aggregate: int, n: nat) {
    forall k: nat | 1 <= k < n :: Has(events, aggregate, k)
  }

  /** No place that can be reached has two ids. */
  ghost predicate OneIdWhereReachable(events: set<Event>) {
    forall e, f | e in events && f in events && SamePlace(e, f) && Reachable(events, e.aggregate, e.sequence) ::
      e.id == f.id
  }

  ghost predicate Within(ds: seq<Delivery>, events: set<Event>) {
    forall d | d in ds :: d.event in events
  }

  function Mark(db: Database, subscriber: int, aggregate: int): nat {
    if (subscriber, aggregate) in db.last then db.last[(subscriber, aggregate)] else 0
  }

  ghost predicate InOrderOnce(db: Database, subscriber: int, aggregate: int) {
    AppliedFor(db.log, subscriber, aggregate) == UpTo(Mark(db, subscriber, aggregate))
  }

  // --------------------------------------------------------------------- safety

  /** What holds after any deliveries: every place up to a mark exists and its claim is taken; each log is 1 to its
      mark. */
  ghost predicate SafeOk(db: Database, events: set<Event>) {
    && (forall s: int, e | e in events && e.sequence <= Mark(db, s, e.aggregate) :: (s, e.id) in db.applied)
    && (forall s: int, a: int, k: nat | 1 <= k <= Mark(db, s, a) :: Has(events, a, k))
    && (forall s: int, a: int :: InOrderOnce(db, s, a))
  }

  lemma MarkAfter(db: Database, after: Database, d: Delivery)
    requires after.last == db.last[(d.subscriber, d.event.aggregate) := Mark(db, d.subscriber, d.event.aggregate) + 1]
    ensures forall s: int, a: int ::
              Mark(after, s, a) == Mark(db, s, a) + if s == d.subscriber && a == d.event.aggregate then 1 else 0
  {
  }

  lemma AppliedOnlyInTurn(db: Database, events: set<Event>, d: Delivery)
    requires SafeOk(db, events) && d.event in events
    ensures var (after, what), mark := Handle(db, d), Mark(db, d.subscriber, d.event.aggregate);
            && (what != Inbox(Returned) ==> after == db)
            && (what == Inbox(Returned) ==>
                  && d.event.sequence == mark + 1
                  && after.applied == db.applied + {ClaimOf(d.subscriber, d.event)}
                  && after.last == db.last[(d.subscriber, d.event.aggregate) := mark + 1]
                  && after.log == db.log + [(d.subscriber, d.event)])
  {
    hide InOrderOnce, Has;
  }

  lemma NextInOrder(db: Database, after: Database, d: Delivery)
    requires forall s: int, a: int :: InOrderOnce(db, s, a)
    requires var mark := Mark(db, d.subscriber, d.event.aggregate);
             && d.event.sequence == mark + 1
             && after.last == db.last[(d.subscriber, d.event.aggregate) := mark + 1]
             && after.log == db.log + [(d.subscriber, d.event)]
    ensures forall s: int, a: int :: InOrderOnce(after, s, a)
  {
    MarkAfter(db, after, d);
    forall s: int, a: int ensures InOrderOnce(after, s, a) {
      assert InOrderOnce(db, s, a);
      assert after.log[..|after.log| - 1] == db.log;
    }
  }

  lemma HandleSafe(db: Database, events: set<Event>, d: Delivery)
    requires OneIdWhereReachable(events) && SafeOk(db, events) && d.event in events
    ensures SafeOk(Handle(db, d).0, events)
  {
    hide Handle, InOrderOnce, Mark;
    AppliedOnlyInTurn(db, events, d);
    var (after, what) := Handle(db, d);
    if what == Inbox(Returned) {
      var e := d.event;
      MarkAfter(db, after, d);
      NextInOrder(db, after, d);
      assert Has(events, e.aggregate, e.sequence);
      forall s: int, f | f in events && f.sequence <= Mark(after, s, f.aggregate) ensures (s, f.id) in after.applied {
        if f.sequence > Mark(db, s, f.aggregate) {
          assert SamePlace(e, f) && Reachable(events, e.aggregate, e.sequence);
        }
      }
    }
  }

  lemma BlankSafe(events: set<Event>)
    ensures Numbered(events) ==> SafeOk(BLANK, events)
  {
  }

  lemma {:induction false} RunSafe(db: Database, events: set<Event>, ds: seq<Delivery>)
    requires OneIdWhereReachable(events) && Within(ds, events) && SafeOk(db, events)
    ensures SafeOk(RunFrom(db, ds), events)
  {
    hide Handle, SafeOk, OneIdWhereReachable;
    if ds != [] {
      RunSafe(db, events, ds[..|ds| - 1]);
      assert ds[|ds| - 1] in ds;
      HandleSafe(RunFrom(db, ds[..|ds| - 1]), events, ds[|ds| - 1]);
    }
  }

  /** Whatever the order, the repetitions and the failures, every subscriber has applied each aggregate's events
      1 to k, each once, in order, if no place that can be reached has two ids. An id may name several places. */
  lemma AppliedInOrderOnce(events: set<Event>, ds: seq<Delivery>, subscriber: int, aggregate: int)
    requires Numbered(events) && OneIdWhereReachable(events) && Within(ds, events)
    ensures InOrderOnce(RunFrom(BLANK, ds), subscriber, aggregate)
  {
    hide RunFrom, InOrderOnce;
    BlankSafe(events);
    RunSafe(BLANK, events, ds);
  }

  /** The subscriber has been brought to number `n` of the aggregate, claiming nothing else. */
  ghost predicate BroughtTo(db: Database, events: set<Event>, subscriber: int, aggregate: int, n: nat) {
    && Mark(db, subscriber, aggregate) == n
    && AppliedFor(db.log, subscriber, aggregate) == UpTo(n)
    && forall c | c in db.applied ::
         exists e | e in events :: c == (subscriber, e.id) && e.aggregate == aggregate && e.sequence <= n
  }

  lemma RunMore(db: Database, ds: seq<Delivery>, d: Delivery)
    ensures RunFrom(db, ds + [d]) == Handle(RunFrom(db, ds), d).0
  {
    assert (ds + [d])[..|ds|] == ds;
  }

  /** An event whose claim is free and whose turn it is, or has been, is applied. */
  lemma FreeIsApplied(db: Database, subscriber: int, e: Event)
    requires e.Valid() && e.sequence <= Mark(db, subscriber, e.aggregate) + 1
    requires (subscriber, e.id) !in db.applied
    ensures var after := Handle(db, Delivery(subscriber, e, false)).0;
            && after.applied == db.applied + {(subscriber, e.id)}
            && Mark(after, subscriber, e.aggregate) == e.sequence
            && AppliedFor(after.log, subscriber, e.aggregate)
                 == AppliedFor(db.log, subscriber, e.aggregate) + [e.sequence]
  {
    var after := Handle(db, Delivery(subscriber, e, false)).0;
    assert after.log == db.log + [(subscriber, e)];
    assert after.log[..|after.log| - 1] == db.log;
  }

  lemma {:induction false} BringTo(events: set<Event>, subscriber: int, aggregate: int, n: nat)
    returns (ds: seq<Delivery>)
    requires Numbered(events) && OnePlacePerId(events) && Reachable(events, aggregate, n + 1)
    ensures Within(ds, events) && BroughtTo(RunFrom(BLANK, ds), events, subscriber, aggregate, n)
  {
    if n == 0 {
      ds := [];
    } else {
      var before := BringTo(events, subscriber, aggregate, n - 1);
      assert Has(events, aggregate, n);
      var e :| e in events && e.aggregate == aggregate && e.sequence == n;
      ds := before + [Delivery(subscriber, e, false)];
      RunMore(BLANK, before, Delivery(subscriber, e, false));
    }
  }

  /** At a place that can be reached, a second id is a second application: some deliveries bring the subscriber there
      and apply it twice. */
  lemma SecondIdAppliesTwice(events: set<Event>, subscriber: int, e: Event, f: Event) returns (ds: seq<Delivery>)
    requires Numbered(events) && OnePlacePerId(events)
    requires e in events && f in events && SamePlace(e, f) && e.id != f.id
    requires Reachable(events, e.aggregate, e.sequence)
    ensures Within(ds, events)
    ensures AppliedFor(RunFrom(BLANK, ds).log, subscriber, e.aggregate) == UpTo(e.sequence) + [e.sequence]
  {
    hide Handle, Mark, AppliedFor, Reachable, RunFrom;
    var before := BringTo(events, subscriber, e.aggregate, e.sequence - 1);
    var d, again := Delivery(subscriber, e, false), Delivery(subscriber, f, false);
    ds := before + [d] + [again];
    RunMore(BLANK, before, d);
    RunMore(BLANK, before + [d], again);
    var db := RunFrom(BLANK, before);
    FreeIsApplied(db, subscriber, e);
    FreeIsApplied(Handle(db, d).0, subscriber, f);
  }

  ghost predicate AlwaysInOrder(events: set<Event>) {
    forall ds, s: int, a: int | Within(ds, events) :: InOrderOnce(RunFrom(BLANK, ds), s, a)
  }

  /** When each id names one place, that is the exact condition. */
  lemma InOrderOnceExactly(events: set<Event>)
    requires Numbered(events) && OnePlacePerId(events)
    ensures AlwaysInOrder(events) <==> OneIdWhereReachable(events)
  {
    hide RunFrom, InOrderOnce;
    if OneIdWhereReachable(events) {
      forall ds, s: int, a: int | Within(ds, events) ensures InOrderOnce(RunFrom(BLANK, ds), s, a) {
        AppliedInOrderOnce(events, ds, s, a);
      }
    } else {
      var e, f :| e in events && f in events && SamePlace(e, f) && Reachable(events, e.aggregate, e.sequence)
                  && e.id != f.id;
      var ds := SecondIdAppliesTwice(events, 0, e, f);
      OneTooMany(RunFrom(BLANK, ds), 0, e.aggregate, e.sequence);
    }
  }

  lemma OneTooMany(db: Database, subscriber: int, aggregate: int, n: nat)
    requires n >= 1 && AppliedFor(db.log, subscriber, aggregate) == UpTo(n) + [n]
    ensures !InOrderOnce(db, subscriber, aggregate)
  {
    var k := Mark(db, subscriber, aggregate);
    UpToIs(k);
    UpToIs(n);
    assert (UpTo(n) + [n])[n] == n;
  }

  /** An id that names two places costs no order, only progress: once the claims at the next place are all taken, the
      subscriber stays where it is. */
  lemma {:induction false} TakenIdBlocks(
    db: Database, events: set<Event>, ds: seq<Delivery>, subscriber: int, aggregate: int)
    requires OneIdWhereReachable(events) && SafeOk(db, events) && Within(ds, events)
    requires forall e | e in events && e.aggregate == aggregate
                          && e.sequence == Mark(db, subscriber, aggregate) + 1 :: (subscriber, e.id) in db.applied
    ensures Mark(RunFrom(db, ds), subscriber, aggregate) == Mark(db, subscriber, aggregate)
    ensures db.applied <= RunFrom(db, ds).applied
  {
    hide SafeOk, OneIdWhereReachable, Handle;
    if ds != [] {
      var earlier, d := ds[..|ds| - 1], ds[|ds| - 1];
      TakenIdBlocks(db, events, earlier, subscriber, aggregate);
      RunSafe(db, events, earlier);
      assert d in ds;
      TakenIsSkipped(RunFrom(db, earlier), events, d);
    }
  }

  lemma TakenIsSkipped(db: Database, events: set<Event>, d: Delivery)
    requires SafeOk(db, events) && d.event in events
    ensures db.applied <= Handle(db, d).0.applied
    ensures ClaimOf(d.subscriber, d.event) in db.applied ==> Handle(db, d).0 == db
    ensures forall s: int, a: int | s != d.subscriber || a != d.event.aggregate || Handle(db, d).0 == db ::
              Mark(Handle(db, d).0, s, a) == Mark(db, s, a)
    ensures Handle(db, d).0 != db ==> d.event.sequence == Mark(db, d.subscriber, d.event.aggregate) + 1
  {
    hide InOrderOnce, Has, SafeOk;
    AppliedOnlyInTurn(db, events, d);
  }

  // ------------------------------------------------- with ids that name events

  /** An event's claim stands exactly if its number has been reached; each log is 1 to its mark. */
  ghost predicate DatabaseOk(db: Database, events: set<Event>) {
    && (forall s: int, e | e in events :: (s, e.id) in db.applied <==> e.sequence <= Mark(db, s, e.aggregate))
    && (forall s: int, a: int :: InOrderOnce(db, s, a))
  }

  /** What one delivery does: the next event is applied unless its mutation raises; any other delivery, early, late
      or failed, leaves no trace. */
  lemma HandleExactly(db: Database, events: set<Event>, d: Delivery)
    requires Bijective(events) && DatabaseOk(db, events) && d.event in events
    ensures var (after, what), mark := Handle(db, d), Mark(db, d.subscriber, d.event.aggregate);
            && (what.Deferred? <==> d.event.sequence > mark + 1)
            && (what.Deferred? ==> what.gap == SequenceGap(d.event.aggregate, mark + 1, d.event.sequence))
            && (what == Inbox(Skipped) <==> d.event.sequence <= mark)
            && (what == Inbox(Raised) <==> d.event.sequence == mark + 1 && d.raises)
            && (what == Inbox(Returned) <==> d.event.sequence == mark + 1 && !d.raises)
            && (what != Inbox(Returned) ==> after == db)
            && (what == Inbox(Returned) ==>
                  && after.applied == db.applied + {(d.subscriber, d.event.id)}
                  && after.last == db.last[(d.subscriber, d.event.aggregate) := mark + 1]
                  && after.log == db.log + [(d.subscriber, d.event)])
  {
  }

  lemma HandleOk(db: Database, events: set<Event>, d: Delivery)
    requires Bijective(events) && DatabaseOk(db, events) && d.event in events
    ensures DatabaseOk(Handle(db, d).0, events)
  {
    hide Handle, Mark, InOrderOnce;
    HandleExactly(db, events, d);
    var (after, what) := Handle(db, d);
    if what == Inbox(Returned) {
      var me, e := d.subscriber, d.event;
      MarkAfter(db, after, d);
      NextInOrder(db, after, d);
      forall s: int, f | f in events
        ensures (s, f.id) in after.applied <==> f.sequence <= Mark(after, s, f.aggregate)
      {
        assert f.id == e.id <==> SamePlace(e, f);
        assert (s, f.id) in after.applied <==> (s, f.id) in db.applied || (s == me && f.id == e.id);
      }
    }
  }

  lemma BlankOk(events: set<Event>)
    ensures Bijective(events) ==> DatabaseOk(BLANK, events)
  {
  }

  lemma {:induction false} RunOk(db: Database, events: set<Event>, ds: seq<Delivery>)
    requires Bijective(events) && Within(ds, events) && DatabaseOk(db, events)
    ensures DatabaseOk(RunFrom(db, ds), events)
  {
    hide Handle, DatabaseOk, Bijective;
    if ds != [] {
      RunOk(db, events, ds[..|ds| - 1]);
      assert ds[|ds| - 1] in ds;
      HandleOk(RunFrom(db, ds[..|ds| - 1]), events, ds[|ds| - 1]);
    }
  }

  // ------------------------------------------------------------------- progress

  /** The pass delivers event number `k` of the aggregate to the subscriber at least once without failing. */
  ghost predicate Delivers(pass: seq<Delivery>, subscriber: int, aggregate: int, k: nat) {
    exists d | d in pass :: d.subscriber == subscriber && d.event.aggregate == aggregate && d.event.sequence == k && !d.raises
  }

  lemma {:induction false} MarkNeverFalls(
    db: Database, events: set<Event>, ds: seq<Delivery>, subscriber: int, aggregate: int)
    requires Bijective(events) && Within(ds, events) && DatabaseOk(db, events)
    ensures Mark(RunFrom(db, ds), subscriber, aggregate) >= Mark(db, subscriber, aggregate)
  {
    hide Handle, DatabaseOk, Bijective, Mark;
    if ds != [] {
      var earlier, d := ds[..|ds| - 1], ds[|ds| - 1];
      MarkNeverFalls(db, events, earlier, subscriber, aggregate);
      RunOk(db, events, earlier);
      assert d in ds;
      MarkStep(RunFrom(db, earlier), events, d, subscriber, aggregate);
    }
  }

  /** One delivery moves a mark only to the next number, and does so exactly for the next event, unfailing. */
  lemma MarkStep(db: Database, events: set<Event>, d: Delivery, subscriber: int, aggregate: int)
    requires Bijective(events) && DatabaseOk(db, events) && d.event in events
    ensures var mark := Mark(db, subscriber, aggregate);
            Mark(Handle(db, d).0, subscriber, aggregate)
              == mark + if d.subscriber == subscriber && d.event.aggregate == aggregate
                           && d.event.sequence == mark + 1 && !d.raises then 1 else 0
  {
  }

  /** A pass that delivers the next event applies it, wherever in the pass it comes. */
  lemma {:induction false} PassAdvances(
    db: Database, events: set<Event>, pass: seq<Delivery>, subscriber: int, aggregate: int)
    requires Bijective(events) && Within(pass, events) && DatabaseOk(db, events)
    requires Delivers(pass, subscriber, aggregate, Mark(db, subscriber, aggregate) + 1)
    ensures Mark(RunFrom(db, pass), subscriber, aggregate) > Mark(db, subscriber, aggregate)
  {
    hide Handle, DatabaseOk, Bijective, Mark;
    var earlier, d := pass[..|pass| - 1], pass[|pass| - 1];
    assert d in pass && pass == earlier + [d];
    MarkNeverFalls(db, events, earlier, subscriber, aggregate);
    RunOk(db, events, earlier);
    MarkStep(RunFrom(db, earlier), events, d, subscriber, aggregate);
    if Delivers(earlier, subscriber, aggregate, Mark(db, subscriber, aggregate) + 1) {
      PassAdvances(db, events, earlier, subscriber, aggregate);
    }
  }

  function RunPasses(db: Database, passes: seq<seq<Delivery>>): Database {
    if passes == [] then db else RunFrom(RunPasses(db, passes[..|passes| - 1]), passes[|passes| - 1])
  }

  /** Redelivery finishes: if every pass delivers each of an aggregate's `n` events once without failing, in any
      order and among any other deliveries, each pass applies one more at least, and `n` passes apply them all. */
  lemma {:induction false} RedeliveryFinishes(
    events: set<Event>, passes: seq<seq<Delivery>>, subscriber: int, aggregate: int, n: nat)
    requires Bijective(events) && (forall p | p in passes :: Within(p, events))
    requires forall e | e in events && e.aggregate == aggregate :: e.sequence <= n
    requires forall p, k | p in passes && 1 <= k <= n :: Delivers(p, subscriber, aggregate, k)
    ensures var db, atLeast := RunPasses(BLANK, passes), if |passes| < n then |passes| else n;
            && DatabaseOk(db, events)
            && atLeast <= Mark(db, subscriber, aggregate) <= n
            && (|passes| >= n ==> AppliedFor(db.log, subscriber, aggregate) == UpTo(n))
  {
    hide RunFrom, Delivers, Bijective, Within, Mark, DatabaseOk;
    if passes == [] {
      BlankOk(events);
      BlankMark(subscriber, aggregate);
    } else {
      var earlier, pass := passes[..|passes| - 1], passes[|passes| - 1];
      assert pass in passes && forall p | p in earlier :: p in passes;
      RedeliveryFinishes(events, earlier, subscriber, aggregate, n);
      var db := RunPasses(BLANK, earlier);
      RunOk(db, events, pass);
      MarkNeverFalls(db, events, pass, subscriber, aggregate);
      MarkAtMost(db, events, pass, subscriber, aggregate, n);
      if Mark(db, subscriber, aggregate) < n {
        PassAdvances(db, events, pass, subscriber, aggregate);
      }
    }
    LogIsUpTo(RunPasses(BLANK, passes), events, subscriber, aggregate);
  }

  lemma LogIsUpTo(db: Database, events: set<Event>, subscriber: int, aggregate: int)
    requires DatabaseOk(db, events)
    ensures AppliedFor(db.log, subscriber, aggregate) == UpTo(Mark(db, subscriber, aggregate))
  {
    assert InOrderOnce(db, subscriber, aggregate);
  }

  lemma BlankMark(subscriber: int, aggregate: int)
    ensures Mark(BLANK, subscriber, aggregate) == 0
  {
  }

  lemma {:induction false} MarkAtMost(
    db: Database, events: set<Event>, ds: seq<Delivery>, subscriber: int, aggregate: int, n: nat)
    requires Bijective(events) && Within(ds, events) && DatabaseOk(db, events)
    requires forall e | e in events && e.aggregate == aggregate :: e.sequence <= n
    requires Mark(db, subscriber, aggregate) <= n
    ensures Mark(RunFrom(db, ds), subscriber, aggregate) <= n
  {
    hide Handle, DatabaseOk, Bijective, Mark;
    if ds != [] {
      var earlier, d := ds[..|ds| - 1], ds[|ds| - 1];
      MarkAtMost(db, events, earlier, subscriber, aggregate, n);
      RunOk(db, events, earlier);
      assert d in ds;
      MarkStep(RunFrom(db, earlier), events, d, subscriber, aggregate);
    }
  }

  ghost predicate Descending(pass: seq<Delivery>) {
    forall i, j | 0 <= i < j < |pass| :: pass[i].event.sequence > pass[j].event.sequence
  }

  /** No fewer passes will do: delivered from the last number to the first, a pass applies one event only. */
  lemma {:induction false} DescendingPassAdvancesOnce(
    db: Database, events: set<Event>, pass: seq<Delivery>, subscriber: int, aggregate: int)
    requires Bijective(events) && Within(pass, events) && DatabaseOk(db, events)
    requires Descending(pass)
    ensures Mark(RunFrom(db, pass), subscriber, aggregate) <= Mark(db, subscriber, aggregate) + 1
    ensures Mark(RunFrom(db, pass), subscriber, aggregate) == Mark(db, subscriber, aggregate) + 1 ==>
              exists d | d in pass :: d.event.sequence == Mark(db, subscriber, aggregate) + 1
  {
    hide Handle, DatabaseOk, Bijective, Mark;
    if pass != [] {
      var earlier, d := pass[..|pass| - 1], pass[|pass| - 1];
      assert d in pass && forall x | x in earlier :: x in pass;
      DescendingPassAdvancesOnce(db, events, earlier, subscriber, aggregate);
      RunOk(db, events, earlier);
      MarkStep(RunFrom(db, earlier), events, d, subscriber, aggregate);
      forall x | x in earlier ensures x.event.sequence > d.event.sequence {
        var i :| 0 <= i < |earlier| && earlier[i] == x;
        assert pass[i] == x;
      }
    }
  }

  /** So `n` events redelivered in descending order take `n` passes, and no fewer. */
  lemma {:induction false} DescendingPassesAreSlow(
    events: set<Event>, passes: seq<seq<Delivery>>, subscriber: int, aggregate: int)
    requires Bijective(events) && (forall p | p in passes :: Within(p, events))
    requires forall p | p in passes :: Descending(p)
    ensures DatabaseOk(RunPasses(BLANK, passes), events)
    ensures Mark(RunPasses(BLANK, passes), subscriber, aggregate) <= |passes|
  {
    hide RunFrom, Bijective, Within, Mark, DatabaseOk;
    if passes == [] {
      BlankOk(events);
      BlankMark(subscriber, aggregate);
    } else {
      var earlier, pass := passes[..|passes| - 1], passes[|passes| - 1];
      assert pass in passes && forall p | p in earlier :: p in passes;
      DescendingPassesAreSlow(events, earlier, subscriber, aggregate);
      RunOk(RunPasses(BLANK, earlier), events, pass);
      DescendingPassAdvancesOnce(RunPasses(BLANK, earlier), events, pass, subscriber, aggregate);
    }
  }

  // ----------------------------------------------------------------- the classes

  class InMemoryInbox {
    var applied: set<Claim>

    constructor ()
      ensures applied == BLANK.applied
    {
      applied := {};
    }

    method MakeClaim(claim: Claim) returns (mine: bool)
      modifies this
      ensures mine <==> claim !in old(applied)
      ensures applied == old(applied) + {claim}
    {
      if claim in applied {
        return false;
      }
      applied := applied + {claim};
      return true;
    }

    method Release(claim: Claim)
      modifies this
      ensures applied == old(applied) - {claim}
    {
      applied := applied - {claim};
    }

    /** Claim, then mutate; a mutation that raises takes its claim back with it. */
    method ApplyOnceTo(claim: Claim, raises: bool) returns (outcome: Outcome)
      modifies this
      ensures (applied, outcome) == ApplyOnce(old(applied), claim, raises)
    {
      ghost var before := applied;
      var mine := MakeClaim(claim);
      if !mine {
        assert before + {claim} == before;
        return Skipped;
      }
      if raises {
        Release(claim);
        assert before + {claim} - {claim} == before;
        return Raised;
      }
      return Returned;
    }
  }

  class Consumer {
    const inbox: InMemoryInbox
    var last: map<(int, int), nat>
    var log: seq<(int, Event)>

    ghost function Contents(): Database
      reads this, inbox
    {
      Database(inbox.applied, last, log)
    }

    constructor (inbox: InMemoryInbox)
      ensures this.inbox == inbox && last == map[] && log == []
    {
      this.inbox, last, log := inbox, map[], [];
    }

    /** Check the sequence, then apply once; the mutation advances the mark. */
    method HandleOne(d: Delivery) returns (what: Handled)
      modifies this, inbox
      ensures (Contents(), what) == Handle(old(Contents()), d)
    {
      var pair := (d.subscriber, d.event.aggregate);
      var gap := CheckSequence(if pair in last then Some(last[pair]) else None, d.event);
      if gap.Some? {
        return Deferred(gap.value);
      }
      var outcome := inbox.ApplyOnceTo(ClaimOf(d.subscriber, d.event), d.raises);
      if outcome.Returned? {
        last := last[pair := d.event.sequence];
        log := log + [(d.subscriber, d.event)];
      }
      return Inbox(outcome);
    }
  }
}
