// The subscription planner: capacity decided before subscribing, with a ladder of
// degradations that is never silent and never touches protected instruments.

module Subscription {
  import opened Sorting
  import opened Rounding

  datatype DataMode = Ltpc | Greeks | Full

  /** Instruments by mode, with the order in which the modes were entered. */
  datatype Modes = Modes(order: seq<DataMode>, ids: map<DataMode, seq<int>>) {
    ghost predicate Valid() {
      && (forall m :: m in order <==> m in ids)
      && forall i, j | 0 <= i < j < |order| :: order[i] != order[j]
    }

    function Of(mode: DataMode): seq<int> {
      if mode in ids then ids[mode] else []
    }

    function Total(): nat {
      |Of(Full)| + |Of(Greeks)| + |Of(Ltpc)|
    }

    /** Every instrument, as often as it is asked for. */
    ghost function All(): multiset<int> {
      multiset(Of(Full)) + multiset(Of(Greeks)) + multiset(Of(Ltpc))
    }

  }

  datatype Request = Request(modes: Modes, protected: set<int>)

  /** Provider limits; the original refuses fewer than one connection or a reserve outside [0, 1). */
  datatype Budget = Budget(
    maxConnections: int,
    maxLtpcGreeks: int,
    maxFull: int,
    reserveFraction: real)
  {
    predicate Valid() {
      maxConnections >= 1 && 0.0 <= reserveFraction < 1.0
    }

    function Usable(mode: DataMode): int {
      Truncate((if mode.Full? then maxFull else maxLtpcGreeks) as real * (1.0 - reserveFraction))
    }
  }

  datatype Allocation = Allocation(index: nat, mode: DataMode, ids: seq<int>)

  datatype Verdict = Accepted | Degraded | Unsatisfiable

  datatype DegradationStep =
    | DropDepthFarStrikes
    | NarrowStrikeBand
    | DropBackExpiries
    | DropNonPrimaryUnderlyings

  datatype CapacityResult = CapacityResult(
    verdict: Verdict,
    allocations: seq<Allocation>,
    requestedTotal: nat,
    plannedTotal: nat,
    degradations: seq<DegradationStep>,
    dropped: seq<int>)

  // ------------------------------------------------------------------ capacity

  function CeilDiv(n: int, d: int): int
    requires d > 0
  {
    -((-n) / d)
  }

  function ConnectionsNeeded(full: int, shared: int, perConnection: int): int {
    if perConnection <= 0 then 0x4000_0000
    else if full != 0 && shared != 0 then CeilDiv(full, perConnection) + CeilDiv(shared, perConnection)
    else
      var n := CeilDiv(full + shared, perConnection);
      if n != 0 then n else 1
  }

  predicate Fits(b: Budget, modes: Modes) {
    CountsFit(b, |modes.Of(Full)|, |modes.Of(Ltpc)| + |modes.Of(Greeks)|)
  }

  predicate CountsFit(b: Budget, full: int, shared: int) {
    && full <= b.Usable(Full)
    && shared <= b.Usable(Greeks)
    && ConnectionsNeeded(full, shared, if b.Usable(Full) >= b.Usable(Greeks) then b.Usable(Full) else b.Usable(Greeks))
         <= b.maxConnections
  }

  // ---------------------------------------------------------------- allocation

  /** One mode's connections: consecutive slices of at most `perConnection`. */
  function Slices(mode: DataMode, ids: seq<int>, perConnection: nat, index: nat): seq<Allocation>
    requires perConnection > 0
  {
    if ids == [] then [] else
      var n := if |ids| < perConnection then |ids| else perConnection;
      [Allocation(index, mode, ids[..n])] + Slices(mode, ids[n..], perConnection, index + 1)
  }

  /** There is room on a connection for each mode that is asked for. */
  predicate Roomy(b: Budget, modes: Modes) {
    forall m: DataMode :: modes.Of(m) != [] ==> b.Usable(m) > 0
  }

  function ModeSlices(b: Budget, modes: Modes, mode: DataMode, index: nat): seq<Allocation>
    requires Roomy(b, modes)
  {
    if modes.Of(mode) == [] then [] else Slices(mode, modes.Of(mode), b.Usable(mode), index)
  }

  /** FULL never shares a connection with the other modes. */
  function Allocate(b: Budget, modes: Modes): seq<Allocation>
    requires Roomy(b, modes)
  {
    var full := ModeSlices(b, modes, Full, 0);
    var greeks := ModeSlices(b, modes, Greeks, |full|);
    full + greeks + ModeSlices(b, modes, Ltpc, |full| + |greeks|)
  }

  // ----------------------------------------------------------------- the ladder

  function Keep(ids: seq<int>, wanted: set<int>): seq<int> {
    if ids == [] then [] else
      var last := ids[|ids| - 1];
      Keep(ids[..|ids| - 1], wanted) + if last in wanted then [last] else []
  }

  function Drop(ids: seq<int>, unwanted: set<int>): seq<int> {
    if ids == [] then [] else
      var last := ids[|ids| - 1];
      Drop(ids[..|ids| - 1], unwanted) + if last in unwanted then [] else [last]
  }

  /** A candidate plan: what is still subscribed, the steps taken, the instruments dropped. */
  datatype Rung = Rung(modes: Modes, steps: seq<DegradationStep>, dropped: seq<int>)

  /** FULL keeps only its protected instruments; the others lose depth but keep greeks. */
  function Demote(modes: Modes, protected: set<int>): Modes {
    var demoted := Drop(modes.Of(Full), protected);
    Modes(if Greeks in modes.ids then modes.order else modes.order + [Greeks],
          modes.ids[Full := Keep(modes.Of(Full), protected)][Greeks := modes.Of(Greeks) + demoted])
  }

  /** The tail of the unprotected instruments: a quarter of them, at least one. */
  function Victims(ids: seq<int>, protected: set<int>): set<int> {
    var unprotected := Drop(ids, protected);
    if unprotected == [] then {} else
      var n := if |unprotected| / 4 > 1 then |unprotected| / 4 else 1;
      var tail := unprotected[|unprotected| - n..];
      set id | id in tail
  }

  /** Shed the tail of each mode in turn. */
  function Shed(order: seq<DataMode>, modes: Modes, protected: set<int>): (Modes, seq<int>) {
    if order == [] then (modes, []) else
      var mode := order[|order| - 1];
      var (before, shed) := Shed(order[..|order| - 1], modes, protected);
      var victims := Victims(before.Of(mode), protected);
      if victims == {} then (before, shed)
      else (before.(ids := before.ids[mode := Drop(before.Of(mode), victims)]), shed + Sorted(victims, AtMost()))
  }

  /** The rungs from here down: each step sheds again, until nothing can be shed. */
  function ShedRungs(rung: Rung, protected: set<int>, steps: seq<DegradationStep>): seq<Rung>
    decreases |steps|
  {
    if steps == [] then [] else
      var (modes, shed) := Shed(rung.modes.order, rung.modes, protected);
      if shed == [] then [] else
        var next := Rung(modes, rung.steps + [steps[0]], rung.dropped + shed);
        [next] + ShedRungs(next, protected, steps[1..])
  }

  const SHED_STEPS := [NarrowStrikeBand, DropBackExpiries, DropNonPrimaryUnderlyings]

  predicate CanDemote(request: Request) {
    Drop(request.modes.Of(Full), request.protected) != []
  }

  /** Every candidate the ladder offers, in the order they are checked. */
  function Rungs(request: Request): seq<Rung> {
    if CanDemote(request) then
      var demoted := Rung(Demote(request.modes, request.protected), [DropDepthFarStrikes], []);
      [demoted] + ShedRungs(demoted, request.protected, SHED_STEPS)
    else
      ShedRungs(Rung(request.modes, [], []), request.protected, SHED_STEPS)
  }

  // ---------------------------------------------------------------- conservation

  lemma {:induction false} KeepDropSplit(ids: seq<int>, s: set<int>)
    ensures multiset(Keep(ids, s)) + multiset(Drop(ids, s)) == multiset(ids)
  {
    if ids != [] {
      var before, last := ids[..|ids| - 1], ids[|ids| - 1];
      KeepDropSplit(before, s);
      assert ids == before + [last];
      assert Keep(ids, s) == Keep(before, s) + if last in s then [last] else [];
      assert Drop(ids, s) == Drop(before, s) + if last in s then [] else [last];
      hide Keep, Drop;
      assert multiset(ids) == multiset(before) + multiset{last};
    }
  }

  lemma {:induction false} KeepDropMembers(ids: seq<int>, s: set<int>)
    ensures forall id :: id in Keep(ids, s) <==> id in ids && id in s
    ensures forall id :: id in Drop(ids, s) <==> id in ids && id !in s
  {
    if ids != [] {
      KeepDropMembers(ids[..|ids| - 1], s);
      assert ids == ids[..|ids| - 1] + [ids[|ids| - 1]];
    }
  }

  lemma {:induction false} MultisetOfSorted(s: set<int>)
    ensures multiset(Sorted(s, AtMost())) == multiset(s)
    decreases s
  {
    if s != {} {
      var m := Least(s, AtMost());
      MultisetOfSorted(s - {m});
      assert multiset(s) == multiset{m} + multiset(s - {m});
      assert Sorted(s, AtMost()) == [m] + Sorted(s - {m}, AtMost());
    }
  }

  lemma {:induction false} DropCounts(ids: seq<int>, gone: set<int>)
    ensures forall id :: multiset(Drop(ids, gone))[id] == if id in gone then 0 else multiset(ids)[id]
  {
    if ids != [] {
      var before, last := ids[..|ids| - 1], ids[|ids| - 1];
      DropCounts(before, gone);
      assert ids == before + [last];
    }
  }

  /** Of a list, dropping a set records everything it removes exactly if the list held each of the set once. */
  lemma DroppedOnceIff(ids: seq<int>, victims: set<int>)
    requires forall id | id in victims :: id in ids
    ensures multiset(ids) == multiset(Drop(ids, victims)) + multiset(victims) <==>
              forall id | id in victims :: multiset(ids)[id] == 1
  {
    hide Drop;
    DropCounts(ids, victims);
    var kept := multiset(Drop(ids, victims)) + multiset(victims);
    assert forall id :: kept[id] == if id in victims then 1 else multiset(ids)[id];
    if forall id | id in victims :: multiset(ids)[id] == 1 {
      assert forall id :: kept[id] == multiset(ids)[id];
    }
  }

  lemma VictimsUnprotected(ids: seq<int>, protected: set<int>)
    ensures forall id | id in Victims(ids, protected) :: id in ids && id !in protected
    ensures Victims(ids, protected) == {} <==> Drop(ids, protected) == []
  {
    KeepDropMembers(ids, protected);
    var unprotected := Drop(ids, protected);
    if unprotected != [] {
      assert unprotected[|unprotected| - 1] in Victims(ids, protected);
    }
  }

  /** An instrument of a mode that is no longer there. */
  ghost predicate Gone(base: Modes, modes: Modes, mode: DataMode, id: int) {
    id in base.Of(mode) && id !in modes.Of(mode)
  }

  ghost function Times(base: Modes, modes: Modes, id: int): nat {
    One(Gone(base, modes, Full, id)) + One(Gone(base, modes, Greeks, id)) + One(Gone(base, modes, Ltpc, id))
  }

  function One(present: bool): nat {
    if present then 1 else 0
  }

  /** Each instrument still listed is listed as often as it was. */
  ghost predicate Whole(was: seq<int>, ids: seq<int>) {
    forall id :: multiset(ids)[id] == if id in ids then multiset(was)[id] else 0
  }

  /** What shedding from `base` maintains: of each mode an instrument is all there or all gone, and what is gone has been
      recorded once for each mode it left. */
  ghost predicate Recorded(base: Modes, modes: Modes, dropped: multiset<int>) {
    && (forall m: DataMode :: Whole(base.Of(m), modes.Of(m)))
    && forall id :: dropped[id] == Times(base, modes, id)
  }

  lemma StillWhole(was: seq<int>, ids: seq<int>, victims: set<int>)
    requires Whole(was, ids)
    ensures Whole(was, Drop(ids, victims))
    ensures forall id | id in ids :: id in was
    ensures forall id :: id in Drop(ids, victims) <==> id in ids && id !in victims
  {
    hide Drop;
    KeepDropMembers(ids, victims);
    DropCounts(ids, victims);
    forall id | id in ids ensures id in was {
      assert id in multiset(ids);
      assert multiset(was)[id] > 0;
    }
  }

  lemma OneMode(modes: Modes, mode: DataMode, ids: seq<int>)
    ensures var after := modes.(ids := modes.ids[mode := ids]);
            after.Of(mode) == ids && forall m | m != mode :: after.Of(m) == modes.Of(m)
  {
  }

  lemma TimesAfter(base: Modes, modes: Modes, after: Modes, mode: DataMode, victims: set<int>, id: int)
    requires forall m | m != mode :: after.Of(m) == modes.Of(m)
    requires id in modes.Of(mode) ==> id in base.Of(mode)
    requires id in after.Of(mode) <==> id in modes.Of(mode) && id !in victims
    requires id in victims ==> id in modes.Of(mode)
    ensures Times(base, after, id) == Times(base, modes, id) + One(id in victims)
  {
    hide Modes.Of;
    assert forall m | m != mode :: Gone(base, after, m, id) == Gone(base, modes, m, id);
    assert One(Gone(base, after, mode, id)) == One(Gone(base, modes, mode, id)) + One(id in victims);
    match mode
    case Full =>
    case Greeks =>
    case Ltpc =>
  }

  lemma ShedMode(base: Modes, modes: Modes, dropped: multiset<int>, mode: DataMode, victims: set<int>)
    requires Recorded(base, modes, dropped) && forall id | id in victims :: id in modes.Of(mode)
    ensures Recorded(base, modes.(ids := modes.ids[mode := Drop(modes.Of(mode), victims)]), dropped + multiset(victims))
  {
    hide Drop, Whole, Modes.Of, Times;
    var after := modes.(ids := modes.ids[mode := Drop(modes.Of(mode), victims)]);
    OneMode(modes, mode, Drop(modes.Of(mode), victims));
    StillWhole(base.Of(mode), modes.Of(mode), victims);
    forall m: DataMode ensures Whole(base.Of(m), after.Of(m)) {
      assert Whole(base.Of(m), modes.Of(m));
    }
    forall id ensures (dropped + multiset(victims))[id] == Times(base, after, id) {
      TimesAfter(base, modes, after, mode, victims, id);
      assert multiset(victims)[id] == One(id in victims);
      assert dropped[id] == Times(base, modes, id);
    }
  }

  lemma {:induction false} ShedRecords(
    order: seq<DataMode>, base: Modes, modes: Modes, dropped: multiset<int>, protected: set<int>)
    requires Recorded(base, modes, dropped)
    ensures var (after, shed) := Shed(order, modes, protected);
            Recorded(base, after, dropped + multiset(shed)) && forall id | id in shed :: id !in protected
  {
    hide Recorded, Drop, Victims;
    if order == [] {
      assert dropped + multiset([]) == dropped;
    } else {
      var mode := order[|order| - 1];
      ShedRecords(order[..|order| - 1], base, modes, dropped, protected);
      var (before, shed) := Shed(order[..|order| - 1], modes, protected);
      var victims := Victims(before.Of(mode), protected);
      VictimsUnprotected(before.Of(mode), protected);
      ShedMode(base, before, dropped + multiset(shed), mode, victims);
      MultisetOfSorted(victims);
      SortedElements(victims, AtMost());
      assert multiset(shed + Sorted(victims, AtMost())) == multiset(shed) + multiset(victims);
      assert dropped + multiset(shed) + multiset(victims) == dropped + (multiset(shed) + multiset(victims));
    }
  }

  /** A rung as the ladder leaves it: everything gone is recorded and unprotected. */
  ghost predicate RungOk(base: Modes, protected: set<int>, rung: Rung) {
    && Recorded(base, rung.modes, multiset(rung.dropped))
    && forall id | id in rung.dropped :: id !in protected
  }

  lemma {:induction false} ShedRungsOk(base: Modes, rung: Rung, protected: set<int>, steps: seq<DegradationStep>)
    requires RungOk(base, protected, rung)
    ensures forall r | r in ShedRungs(rung, protected, steps) :: RungOk(base, protected, r)
    decreases |steps|
  {
    hide Recorded, Shed;
    if steps != [] {
      ShedRecords(rung.modes.order, base, rung.modes, multiset(rung.dropped), protected);
      var (modes, shed) := Shed(rung.modes.order, rung.modes, protected);
      if shed != [] {
        var next := Rung(modes, rung.steps + [steps[0]], rung.dropped + shed);
        assert multiset(next.dropped) == multiset(rung.dropped) + multiset(shed);
        ShedRungsOk(base, next, protected, steps[1..]);
      }
    }
  }

  /** What the shedding starts from: the request, with its loose FULL instruments moved to GREEKS if there are any. */
  function Base(request: Request): Modes {
    if CanDemote(request) then Demote(request.modes, request.protected) else request.modes
  }

  lemma NothingGone(base: Modes, protected: set<int>, steps: seq<DegradationStep>)
    ensures RungOk(base, protected, Rung(base, steps, []))
  {
  }

  lemma RungsOk(request: Request)
    ensures forall r | r in Rungs(request) :: RungOk(Base(request), request.protected, r)
  {
    hide RungOk, ShedRungs, Demote, CanDemote;
    var start := if CanDemote(request) then Rung(Base(request), [DropDepthFarStrikes], [])
                 else Rung(Base(request), [], []);
    NothingGone(Base(request), request.protected, start.steps);
    ShedRungsOk(Base(request), start, request.protected, SHED_STEPS);
  }

  /** Demotion moves instruments and loses none. */
  lemma BaseIsRequest(request: Request)
    ensures Base(request).All() == request.modes.All()
  {
    hide Keep, Drop;
    KeepDropSplit(request.modes.Of(Full), request.protected);
  }

  /** Everything that went had been asked for once in the list it went from. */
  ghost predicate GoneOnce(base: Modes, modes: Modes) {
    forall m: DataMode, id | Gone(base, modes, m, id) :: multiset(base.Of(m))[id] == 1
  }

  lemma CountsOf(base: Modes, modes: Modes, dropped: multiset<int>, id: int)
    requires Recorded(base, modes, dropped)
    ensures modes.All()[id] + dropped[id] <= base.All()[id]
    ensures modes.All()[id] + dropped[id] == base.All()[id] <==>
              forall m: DataMode | Gone(base, modes, m, id) :: multiset(base.Of(m))[id] == 1
  {
    forall m: DataMode
      ensures multiset(base.Of(m))[id]
                == multiset(modes.Of(m))[id] + if Gone(base, modes, m, id) then multiset(base.Of(m))[id] else 0
      ensures Gone(base, modes, m, id) ==> multiset(base.Of(m))[id] >= 1
    {
      assert id in multiset(base.Of(m)) <==> id in base.Of(m);
      assert id in multiset(modes.Of(m)) <==> id in modes.Of(m);
    }
    var full, greeks, ltpc := Full, Greeks, Ltpc;
    if modes.All()[id] + dropped[id] == base.All()[id] {
      forall m: DataMode | Gone(base, modes, m, id) ensures multiset(base.Of(m))[id] == 1 {
        match m
        case Full =>
        case Greeks =>
        case Ltpc =>
      }
    }
  }

  /** What is left and what was dropped make up the request exactly if what went had been asked for once. */
  lemma ConservedIff(request: Request, rung: Rung)
    requires RungOk(Base(request), request.protected, rung)
    ensures rung.modes.All() + multiset(rung.dropped) == request.modes.All() <==> GoneOnce(Base(request), rung.modes)
  {
    hide Recorded, Modes.All, Base, Gone;
    var base, left, dropped := Base(request), rung.modes.All(), multiset(rung.dropped);
    BaseIsRequest(request);
    forall id
      ensures (left + dropped)[id] == base.All()[id] <==>
                forall m: DataMode | Gone(base, rung.modes, m, id) :: multiset(base.Of(m))[id] == 1
    {
      CountsOf(base, rung.modes, dropped, id);
    }
    if GoneOnce(base, rung.modes) {
      assert forall id :: (left + dropped)[id] == base.All()[id];
    }
    if left + dropped == base.All() {
      forall m: DataMode, id | Gone(base, rung.modes, m, id) ensures multiset(base.Of(m))[id] == 1 {
        assert (left + dropped)[id] == base.All()[id];
      }
    }
  }

  /** No unprotected instrument repeats in a list. */
  ghost predicate LooseOnce(ids: seq<int>, protected: set<int>) {
    forall id | id !in protected :: multiset(ids)[id] <= 1
  }

  ghost predicate AllLooseOnce(modes: Modes, protected: set<int>) {
    forall m: DataMode :: LooseOnce(modes.Of(m), protected)
  }

  /** No unprotected instrument repeats in LTPC, nor in FULL and GREEKS together; one of each is fine. */
  ghost predicate Sheddable(request: Request) {
    && LooseOnce(request.modes.Of(Ltpc), request.protected)
    && LooseOnce(request.modes.Of(Full) + request.modes.Of(Greeks), request.protected)
  }

  lemma BaseLooseOnce(request: Request, mode: DataMode)
    requires Sheddable(request)
    ensures LooseOnce(Base(request).Of(mode), request.protected)
  {
    hide Keep, Drop;
    var modes, protected, base := request.modes, request.protected, Base(request);
    var full, greeks := multiset(modes.Of(Full)), multiset(modes.Of(Greeks));
    KeepDropSplit(modes.Of(Full), protected);
    forall id | id !in protected ensures multiset(base.Of(mode))[id] <= 1 {
      assert multiset(modes.Of(Full) + modes.Of(Greeks))[id] == full[id] + greeks[id];
      assert full[id] == multiset(Keep(modes.Of(Full), protected))[id] + multiset(Drop(modes.Of(Full), protected))[id];
    }
  }

  lemma SheddableGoneOnce(request: Request, rung: Rung)
    requires Sheddable(request) && RungOk(Base(request), request.protected, rung)
    ensures GoneOnce(Base(request), rung.modes)
  {
    hide Base, Sheddable;
    var base := Base(request);
    forall m: DataMode, id | Gone(base, rung.modes, m, id) ensures multiset(base.Of(m))[id] == 1 {
      BaseLooseOnce(request, m);
      assert multiset(rung.dropped)[id] == Times(base, rung.modes, id);
      assert Times(base, rung.modes, id) >= 1 by {
        match m
        case Full =>
        case Greeks =>
        case Ltpc =>
      }
      assert id in multiset(rung.dropped) && id in multiset(base.Of(m));
    }
  }

  // ------------------------------------------------------------- the allocation

  function Flatten(allocations: seq<Allocation>): seq<int> {
    if allocations == [] then [] else allocations[0].ids + Flatten(allocations[1..])
  }

  lemma {:induction false} FlattenAppend(a: seq<Allocation>, b: seq<Allocation>)
    ensures Flatten(a + b) == Flatten(a) + Flatten(b)
  {
    if a == [] {
      assert a + b == b;
    } else {
      FlattenAppend(a[1..], b);
      var longer := a + b;
      assert longer[0] == a[0] && longer[1..] == a[1..] + b;
      Associative(a[0].ids, Flatten(a[1..]), Flatten(b));
    }
  }

  lemma Associative(x: seq<int>, y: seq<int>, z: seq<int>)
    ensures x + (y + z) == (x + y) + z
  {
  }

  /** The slices are the mode's instruments, in order, none over the limit, numbered from `index`. */
  lemma {:induction false} SlicesOk(mode: DataMode, ids: seq<int>, perConnection: nat, index: nat)
    requires perConnection > 0
    ensures var slices := Slices(mode, ids, perConnection, index);
            && Flatten(slices) == ids
            && forall k | 0 <= k < |slices| ::
                 slices[k].mode == mode && slices[k].index == index + k && 0 < |slices[k].ids| <= perConnection
    decreases |ids|
  {
    if ids != [] {
      var n := if |ids| < perConnection then |ids| else perConnection;
      SlicesOk(mode, ids[n..], perConnection, index + 1);
      assert ids[..n] + ids[n..] == ids;
    }
  }

  /** Consecutively numbered from `index`, each within its mode's budget. */
  ghost predicate Numbered(b: Budget, slices: seq<Allocation>, index: nat) {
    forall k | 0 <= k < |slices| ::
      slices[k].index == index + k && 0 < |slices[k].ids| <= b.Usable(slices[k].mode)
  }

  lemma NumberedOn(b: Budget, first: seq<Allocation>, second: seq<Allocation>, index: nat)
    requires Numbered(b, first, index) && Numbered(b, second, index + |first|)
    ensures Numbered(b, first + second, index)
  {
    hide Budget.Usable;
  }

  lemma ModeOk(b: Budget, modes: Modes, mode: DataMode, index: nat)
    requires Roomy(b, modes)
    ensures var slices := ModeSlices(b, modes, mode, index);
            Flatten(slices) == modes.Of(mode) && Numbered(b, slices, index)
  {
    hide Slices, Budget.Usable;
    if modes.Of(mode) != [] {
      SlicesOk(mode, modes.Of(mode), b.Usable(mode), index);
    }
  }

  /** The allocation covers each mode in order, within that mode's budget, connections numbered consecutively. */
  lemma AllocationOk(b: Budget, modes: Modes)
    requires Roomy(b, modes)
    ensures var allocations := Allocate(b, modes);
            && Flatten(allocations) == modes.Of(Full) + modes.Of(Greeks) + modes.Of(Ltpc)
            && forall k | 0 <= k < |allocations| ::
                 allocations[k].index == k && 0 < |allocations[k].ids| <= b.Usable(allocations[k].mode)
  {
    var full := ModeSlices(b, modes, Full, 0);
    var greeks := ModeSlices(b, modes, Greeks, |full|);
    var ltpc := ModeSlices(b, modes, Ltpc, |full| + |greeks|);
    assert Allocate(b, modes) == full + greeks + ltpc;
    hide ModeSlices, Budget.Usable, Flatten, Roomy, Allocate;
    ModeOk(b, modes, Full, 0);
    ModeOk(b, modes, Greeks, |full|);
    ModeOk(b, modes, Ltpc, |full| + |greeks|);
    NumberedAll(b, full, greeks, ltpc);
    FlattenAppend(full + greeks, ltpc);
    FlattenAppend(full, greeks);
  }

  lemma NumberedAll(b: Budget, full: seq<Allocation>, greeks: seq<Allocation>, ltpc: seq<Allocation>)
    requires Numbered(b, full, 0) && Numbered(b, greeks, |full|) && Numbered(b, ltpc, |full| + |greeks|)
    ensures Numbered(b, full + greeks + ltpc, 0)
  {
    hide Numbered;
    NumberedOn(b, full, greeks, 0);
    NumberedOn(b, full + greeks, ltpc, 0);
  }

  /** The instruments allocated under a mode, connection by connection. */
  function InMode(allocations: seq<Allocation>, mode: DataMode): seq<int> {
    if allocations == [] then [] else
      (if allocations[0].mode == mode then allocations[0].ids else []) + InMode(allocations[1..], mode)
  }

  lemma {:induction false} InModeAppend(a: seq<Allocation>, b: seq<Allocation>, mode: DataMode)
    ensures InMode(a + b, mode) == InMode(a, mode) + InMode(b, mode)
  {
    if a == [] {
      assert a + b == b;
    } else {
      InModeAppend(a[1..], b, mode);
      var longer := a + b;
      assert longer[0] == a[0] && longer[1..] == a[1..] + b;
      Associative(if a[0].mode == mode then a[0].ids else [], InMode(a[1..], mode), InMode(b, mode));
    }
  }

  lemma {:induction false} OneModeOnly(slices: seq<Allocation>, mode: DataMode, asked: DataMode)
    requires forall k | 0 <= k < |slices| :: slices[k].mode == mode
    ensures InMode(slices, asked) == if asked == mode then Flatten(slices) else []
  {
    if slices != [] {
      OneModeOnly(slices[1..], mode, asked);
    }
  }

  lemma ModeInMode(b: Budget, modes: Modes, mode: DataMode, index: nat, asked: DataMode)
    requires Roomy(b, modes)
    ensures InMode(ModeSlices(b, modes, mode, index), asked) == if asked == mode then modes.Of(mode) else []
  {
    hide Slices, Budget.Usable;
    if modes.Of(mode) != [] {
      SlicesOk(mode, modes.Of(mode), b.Usable(mode), index);
      OneModeOnly(Slices(mode, modes.Of(mode), b.Usable(mode), index), mode, asked);
    }
  }

  lemma OnlyOne(ids: seq<int>)
    ensures ids + [] + [] == [] + ids + [] == [] + [] + ids == ids
  {
  }

  lemma PartsOf(b: Budget, modes: Modes, full: seq<Allocation>, greeks: seq<Allocation>, ltpc: seq<Allocation>, mode: DataMode)
    requires Roomy(b, modes)
    requires full == ModeSlices(b, modes, Full, 0) && greeks == ModeSlices(b, modes, Greeks, |full|)
    requires ltpc == ModeSlices(b, modes, Ltpc, |full| + |greeks|)
    ensures InMode(full, mode) + InMode(greeks, mode) + InMode(ltpc, mode) == modes.Of(mode)
  {
    hide ModeSlices, InMode, Roomy, Modes.Of;
    ModeInMode(b, modes, Full, 0, mode);
    ModeInMode(b, modes, Greeks, |full|, mode);
    ModeInMode(b, modes, Ltpc, |full| + |greeks|, mode);
    OnlyOne(modes.Of(mode));
  }

  /** Every mode is allocated just its own instruments, in order. */
  lemma AllocatedInMode(b: Budget, modes: Modes, mode: DataMode)
    requires Roomy(b, modes)
    ensures InMode(Allocate(b, modes), mode) == modes.Of(mode)
  {
    hide ModeSlices, InMode, Roomy, Modes.Of;
    var full := ModeSlices(b, modes, Full, 0);
    var greeks := ModeSlices(b, modes, Greeks, |full|);
    var ltpc := ModeSlices(b, modes, Ltpc, |full| + |greeks|);
    PartsOf(b, modes, full, greeks, ltpc, mode);
    InModeThree(full, greeks, ltpc, mode);
  }

  lemma InModeThree(full: seq<Allocation>, greeks: seq<Allocation>, ltpc: seq<Allocation>, mode: DataMode)
    ensures InMode(full + greeks + ltpc, mode) == InMode(full, mode) + InMode(greeks, mode) + InMode(ltpc, mode)
  {
    hide InMode;
    InModeAppend(full + greeks, ltpc, mode);
    InModeAppend(full, greeks, mode);
  }

  lemma SharedUsable(b: Budget)
    ensures b.Usable(Ltpc) == b.Usable(Greeks)
  {
  }

  lemma FitsIsRoomy(b: Budget, modes: Modes)
    ensures Fits(b, modes) ==> Roomy(b, modes)
  {
  }

  lemma SingleSlice(mode: DataMode, ids: seq<int>, perConnection: nat, index: nat)
    ensures 0 < |ids| <= perConnection ==> |Slices(mode, ids, perConnection, index)| == 1
  {
  }

  /** A plan that fits uses one connection for each mode present. */
  lemma ConnectionsUsed(b: Budget, modes: Modes)
    requires Fits(b, modes) && Roomy(b, modes)
    ensures |Allocate(b, modes)|
              == One(modes.Of(Full) != []) + One(modes.Of(Greeks) != []) + One(modes.Of(Ltpc) != [])
  {
    hide Slices, ConnectionsNeeded, Budget.Usable;
    SharedUsable(b);
    var full := ModeSlices(b, modes, Full, 0);
    var greeks := ModeSlices(b, modes, Greeks, |full|);
    if modes.Of(Full) != [] { SingleSlice(Full, modes.Of(Full), b.Usable(Full), 0); }
    if modes.Of(Greeks) != [] { SingleSlice(Greeks, modes.Of(Greeks), b.Usable(Greeks), |full|); }
    if modes.Of(Ltpc) != [] { SingleSlice(Ltpc, modes.Of(Ltpc), b.Usable(Ltpc), |full| + |greeks|); }
  }

  /** A provider's limit, less the reserve. */
  ghost function AfterReserve(limit: int, reserve: real): real {
    limit as real * (1.0 - reserve)
  }

  /** `n` instruments are within what a limit leaves; none at all are, unless that is minus one or less. */
  ghost predicate Within(n: nat, left: real) {
    n as real <= left || (n == 0 && left > -1.0)
  }

  lemma TruncatedWithin(x: real, n: nat)
    ensures n <= Truncate(x) <==> Within(n, x)
  {
  }

  lemma UsableWithin(b: Budget, n: nat)
    ensures n <= b.Usable(Full) <==> Within(n, AfterReserve(b.maxFull, b.reserveFraction))
    ensures n <= b.Usable(Greeks) <==> Within(n, AfterReserve(b.maxLtpcGreeks, b.reserveFraction))
    ensures b.Usable(Ltpc) == b.Usable(Greeks)
  {
    hide Truncate, Within;
    assert b.Usable(Full) == Truncate(AfterReserve(b.maxFull, b.reserveFraction));
    assert b.Usable(Greeks) == Truncate(AfterReserve(b.maxLtpcGreeks, b.reserveFraction));
    TruncatedWithin(AfterReserve(b.maxFull, b.reserveFraction), n);
    TruncatedWithin(AfterReserve(b.maxLtpcGreeks, b.reserveFraction), n);
  }

  /** What fits, in the provider's figures: FULL within its limit, the others together within theirs, and a connection for
      either kind that is present, at least one in all. Where neither limit leaves room for one instrument the planner asks
      for 2^30 connections. */
  lemma FitsExactly(b: Budget, modes: Modes)
    ensures var full, shared := |modes.Of(Full)|, |modes.Of(Ltpc)| + |modes.Of(Greeks)|;
            var fullLimit, sharedLimit := AfterReserve(b.maxFull, b.reserveFraction),
                                          AfterReserve(b.maxLtpcGreeks, b.reserveFraction);
            var connections := if fullLimit < 1.0 && sharedLimit < 1.0 then 0x4000_0000
                               else if full > 0 && shared > 0 then 2 else 1;
            Fits(b, modes) <==>
              Within(full, fullLimit) && Within(shared, sharedLimit) && connections <= b.maxConnections
  {
    hide Budget.Usable, Modes.Of, AfterReserve, ConnectionsNeeded;
    var full, shared := |modes.Of(Full)|, |modes.Of(Ltpc)| + |modes.Of(Greeks)|;
    UsableWithin(b, full);
    UsableWithin(b, shared);
    UsableWithin(b, 1);
    var per := if b.Usable(Full) >= b.Usable(Greeks) then b.Usable(Full) else b.Usable(Greeks);
    if full <= b.Usable(Full) && shared <= b.Usable(Greeks) {
      NeededOf(full, shared, per);
    }
  }

  lemma NeededOf(full: nat, shared: nat, per: int)
    requires per <= 0 || (full <= per && shared <= per)
    ensures ConnectionsNeeded(full, shared, per)
              == if per <= 0 then 0x4000_0000 else if full > 0 && shared > 0 then 2 else 1
  {
    hide CeilDiv;
    if per > 0 {
      if full > 0 { CeilDivOne(full, per); }
      if shared > 0 { CeilDivOne(shared, per); }
      CeilDivMonotone(0, 0, per);
      if full + shared == 0 { CeilDivIs(0, per); DivUnique(0, per, 0, 0); }
    }
  }

  lemma CeilDivOne(n: int, d: int)
    requires 0 < n <= d
    ensures CeilDiv(n, d) == 1
  {
    DivUnique(-n, d, -1, d - n);
  }

  lemma DivUnique(n: int, d: int, q: int, r: int)
    requires d > 0 && n == d * q + r && 0 <= r < d
    ensures n / d == q
  {
    var k := n / d - q;
    assert d * (n / d) == d * q + d * k by { assert n / d == q + k; }
    assert k >= 1 ==> d * k >= d;
    assert k <= -1 ==> d * k <= -d;
  }

  /** The planner counts GREEKS and LTPC as one pool, so what fits needs one connection for FULL and one for the
      two together, at least one in all. */
  lemma ConnectionsCounted(b: Budget, modes: Modes)
    requires Fits(b, modes)
    ensures var needed := One(modes.Of(Full) != []) + One(modes.Of(Greeks) != [] || modes.Of(Ltpc) != []);
            (if needed > 1 then needed else 1) <= b.maxConnections || b.maxConnections >= 0x4000_0000
  {
    var full, shared := |modes.Of(Full)|, |modes.Of(Ltpc)| + |modes.Of(Greeks)|;
    hide Budget.Usable;
    var per := if b.Usable(Full) >= b.Usable(Greeks) then b.Usable(Full) else b.Usable(Greeks);
    if per > 0 {
      if full > 0 { CeilDivOne(full, per); }
      if shared > 0 { CeilDivOne(shared, per); }
    }
  }

  /** The connections allocated exceed the maximum exactly when GREEKS and LTPC are both present and the count that
      took them for one pool already reached it; then by one. */
  lemma ConnectionLimit(b: Budget, modes: Modes)
    requires b.Valid() && Fits(b, modes) && Roomy(b, modes)
    ensures var both := modes.Of(Greeks) != [] && modes.Of(Ltpc) != [];
            && (|Allocate(b, modes)| > b.maxConnections <==>
                  both && b.maxConnections == One(modes.Of(Full) != []) + 1)
            && |Allocate(b, modes)| <= b.maxConnections + One(both)
  {
    hide Allocate, Fits;
    ConnectionsUsed(b, modes);
    ConnectionsCounted(b, modes);
  }

  // -------------------------------------------------------------------- the plan

  /** The first rung that fits, if one does. */
  function FirstFit(b: Budget, rungs: seq<Rung>): (i: nat)
    ensures i <= |rungs|
    ensures forall j | 0 <= j < i :: !Fits(b, rungs[j].modes)
    ensures i < |rungs| ==> Fits(b, rungs[i].modes)
  {
    if rungs == [] || Fits(b, rungs[0].modes) then 0 else FirstFit(b, rungs[1..]) + 1
  }

  function LastOf(request: Request, rungs: seq<Rung>): Rung {
    if rungs == [] then Rung(request.modes, [], []) else rungs[|rungs| - 1]
  }

  /** What the ladder has done when it gives up. */
  function LastRung(request: Request): Rung {
    LastOf(request, Rungs(request))
  }

  function Plan(b: Budget, request: Request): CapacityResult {
    var total := request.modes.Total();
    if Fits(b, request.modes) then
      FitsIsRoomy(b, request.modes);
      CapacityResult(Accepted, Allocate(b, request.modes), total, total, [], [])
    else
      var rungs := Rungs(request);
      var i := FirstFit(b, rungs);
      if i < |rungs| then
        FitsIsRoomy(b, rungs[i].modes);
        CapacityResult(Degraded, Allocate(b, rungs[i].modes), total, rungs[i].modes.Total(),
                       rungs[i].steps, rungs[i].dropped)
      else
        CapacityResult(Unsatisfiable, [], total, 0, LastRung(request).steps, LastRung(request).dropped)
  }

  /** What a plan leaves subscribed, when it does not refuse. */
  function Chosen(b: Budget, request: Request): Rung {
    var i := FirstFit(b, Rungs(request));
    if !Fits(b, request.modes) && i < |Rungs(request)| then Rungs(request)[i] else Rung(request.modes, [], [])
  }

  lemma PlanIsChosen(b: Budget, request: Request)
    ensures var r, chosen := Plan(b, request), Chosen(b, request);
            !r.verdict.Unsatisfiable? ==>
              && Fits(b, chosen.modes) && Roomy(b, chosen.modes)
              && r.allocations == Allocate(b, chosen.modes) && r.dropped == chosen.dropped
              && r.plannedTotal == chosen.modes.Total()
              && (r.verdict.Accepted? <==> Fits(b, request.modes))
              && (!Fits(b, request.modes) ==> chosen in Rungs(request))
  {
    hide Fits, Allocate, Rungs;
    if Fits(b, Chosen(b, request).modes) { FitsIsRoomy(b, Chosen(b, request).modes); }
  }

  /** What is allocated for modes that fit, in the provider's figures. */
  lemma AllocationWithin(b: Budget, modes: Modes)
    requires Fits(b, modes) && Roomy(b, modes)
    ensures var allocations := Allocate(b, modes);
            && Within(|InMode(allocations, Full)|, AfterReserve(b.maxFull, b.reserveFraction))
            && Within(|InMode(allocations, Greeks)| + |InMode(allocations, Ltpc)|,
                      AfterReserve(b.maxLtpcGreeks, b.reserveFraction))
            && forall k | 0 <= k < |allocations| ::
                 0 < |allocations[k].ids| && |allocations[k].ids| as real <=
                   AfterReserve(if allocations[k].mode.Full? then b.maxFull else b.maxLtpcGreeks, b.reserveFraction)
  {
    hide Fits, Allocate, Modes.Of, Budget.Usable, Within, Roomy, InMode, AfterReserve;
    FitsExactly(b, modes);
    AllocatedInMode(b, modes, Full);
    AllocatedInMode(b, modes, Greeks);
    AllocatedInMode(b, modes, Ltpc);
    AllocationOk(b, modes);
    var allocations := Allocate(b, modes);
    forall k | 0 <= k < |allocations|
      ensures |allocations[k].ids| as real
                <= AfterReserve(if allocations[k].mode.Full? then b.maxFull else b.maxLtpcGreeks, b.reserveFraction)
    {
      var a := allocations[k];
      UsableWithin(b, |a.ids|);
      NotNone(|a.ids|, AfterReserve(if a.mode.Full? then b.maxFull else b.maxLtpcGreeks, b.reserveFraction));
    }
  }

  lemma NotNone(n: nat, left: real)
    ensures n > 0 && Within(n, left) ==> n as real <= left
  {
  }

  /** A plan to subscribe drops nothing protected, stays within the provider's limits less the reserve, each connection
      and the modes together, and exceeds the connection limit only by the one that GREEKS and LTPC cost apart. */
  lemma PlanKeepsLimits(b: Budget, request: Request)
    requires b.Valid()
    ensures var r := Plan(b, request);
            !r.verdict.Unsatisfiable? ==>
              && (forall id | id in r.dropped :: id !in request.protected)
              && |Flatten(r.allocations)| == r.plannedTotal
              && (forall k | 0 <= k < |r.allocations| ::
                    r.allocations[k].index == k
                    && 0 < |r.allocations[k].ids|
                    && |r.allocations[k].ids| as real <= AfterReserve(
                         if r.allocations[k].mode.Full? then b.maxFull else b.maxLtpcGreeks, b.reserveFraction))
              && Within(|InMode(r.allocations, Full)|, AfterReserve(b.maxFull, b.reserveFraction))
              && Within(|InMode(r.allocations, Greeks)| + |InMode(r.allocations, Ltpc)|,
                        AfterReserve(b.maxLtpcGreeks, b.reserveFraction))
              && |r.allocations| <= b.maxConnections + 1
  {
    hide Fits, Allocate, Recorded, Rungs, Plan, Chosen, Base, Budget.Usable, InMode, Roomy, Within, AfterReserve;
    PlanIsChosen(b, request);
    RungsOk(request);
    var chosen := Chosen(b, request);
    if !Plan(b, request).verdict.Unsatisfiable? {
      AllocationOk(b, chosen.modes);
      ConnectionLimit(b, chosen.modes);
      AllocationWithin(b, chosen.modes);
      if Fits(b, request.modes) { ChosenIsRequest(b, request); }
    }
  }

  lemma ChosenIsRequest(b: Budget, request: Request)
    ensures Fits(b, request.modes) ==> Chosen(b, request) == Rung(request.modes, [], [])
  {
  }

  /** An accepted plan always allocates just what was requested. A degraded one allocates and drops just that exactly if
      everything it drops had been asked for once in the list it was shed from. */
  lemma PlanConservesExactly(b: Budget, request: Request)
    ensures var r := Plan(b, request);
            !r.verdict.Unsatisfiable? ==>
              (multiset(Flatten(r.allocations)) + multiset(r.dropped) == request.modes.All() <==>
                 r.verdict.Accepted? || GoneOnce(Base(request), Chosen(b, request).modes))
  {
    hide Fits, Allocate, RungOk, Rungs, Plan, Chosen, Base, GoneOnce;
    PlanIsChosen(b, request);
    RungsOk(request);
    var r, chosen := Plan(b, request), Chosen(b, request);
    if !r.verdict.Unsatisfiable? {
      AllocationOk(b, chosen.modes);
      assert multiset(Flatten(r.allocations)) == chosen.modes.All();
      if Fits(b, request.modes) {
        ChosenIsRequest(b, request);
        assert request.modes.All() + multiset([]) == request.modes.All();
      } else {
        ConservedIff(request, chosen);
      }
    }
  }

  /** So it conserves whenever the request fits, or repeats no unprotected instrument in LTPC or in FULL and GREEKS. */
  lemma PlanConserves(b: Budget, request: Request)
    requires Fits(b, request.modes) || Sheddable(request)
    ensures var r := Plan(b, request);
            !r.verdict.Unsatisfiable? ==> multiset(Flatten(r.allocations)) + multiset(r.dropped) == request.modes.All()
  {
    hide Fits, Allocate, RungOk, Rungs, Plan, Chosen, Base, GoneOnce, Sheddable;
    PlanIsChosen(b, request);
    PlanConservesExactly(b, request);
    RungsOk(request);
    if !Plan(b, request).verdict.Unsatisfiable? && !Fits(b, request.modes) {
      SheddableGoneOnce(request, Chosen(b, request));
    }
  }

  /** A request is accepted exactly when its counts are within the provider's limits less the reserve, and so are the
      connections; every mode is then allocated just what was asked for. */
  lemma AcceptedExactly(b: Budget, request: Request)
    ensures var full, shared := |request.modes.Of(Full)|, |request.modes.Of(Ltpc)| + |request.modes.Of(Greeks)|;
            var fullLimit, sharedLimit := AfterReserve(b.maxFull, b.reserveFraction),
                                          AfterReserve(b.maxLtpcGreeks, b.reserveFraction);
            var connections := if fullLimit < 1.0 && sharedLimit < 1.0 then 0x4000_0000
                               else if full > 0 && shared > 0 then 2 else 1;
            Plan(b, request).verdict.Accepted? <==>
              Within(full, fullLimit) && Within(shared, sharedLimit) && connections <= b.maxConnections
    ensures Plan(b, request).verdict.Accepted? ==>
              && (forall m: DataMode :: InMode(Plan(b, request).allocations, m) == request.modes.Of(m))
              && Plan(b, request).dropped == [] && Plan(b, request).degradations == []
  {
    hide Fits, Allocate, Rungs, Within, Modes.Of, InMode, AfterReserve;
    FitsExactly(b, request.modes);
    if Fits(b, request.modes) {
      FitsIsRoomy(b, request.modes);
      forall m: DataMode ensures InMode(Plan(b, request).allocations, m) == request.modes.Of(m) {
        AllocatedInMode(b, request.modes, m);
      }
    }
  }

  /** The verdict is the earliest that fits: the request itself, else the first rung of the ladder, else refusal. */
  lemma PlanIsFirstFit(b: Budget, request: Request)
    ensures var r, rungs := Plan(b, request), Rungs(request);
            && (r.verdict.Accepted? <==> Fits(b, request.modes))
            && (r.verdict.Degraded? <==>
                  && !Fits(b, request.modes)
                  && exists i | 0 <= i < |rungs| ::
                       && Fits(b, rungs[i].modes)
                       && (forall j | 0 <= j < i :: !Fits(b, rungs[j].modes))
                       && r.degradations == rungs[i].steps && r.dropped == rungs[i].dropped
                       && r.plannedTotal == rungs[i].modes.Total()
                       && forall m: DataMode :: InMode(r.allocations, m) == rungs[i].modes.Of(m))
            && (r.verdict.Unsatisfiable? <==>
                  !Fits(b, request.modes) && forall i | 0 <= i < |rungs| :: !Fits(b, rungs[i].modes))
            && (r.verdict.Unsatisfiable? ==> r.allocations == [] && r.plannedTotal == 0)
            && (r.verdict.Unsatisfiable? && rungs != [] ==>
                  r.degradations == rungs[|rungs| - 1].steps && r.dropped == rungs[|rungs| - 1].dropped)
            && r.requestedTotal == |request.modes.Of(Full)| + |request.modes.Of(Greeks)| + |request.modes.Of(Ltpc)|
  {
    hide Fits, Allocate, Rungs, Modes.Of, InMode;
    var rungs := Rungs(request);
    var i := FirstFit(b, rungs);
    if !Fits(b, request.modes) && i < |rungs| {
      FitsIsRoomy(b, rungs[i].modes);
      forall m: DataMode ensures InMode(Plan(b, request).allocations, m) == rungs[i].modes.Of(m) {
        AllocatedInMode(b, rungs[i].modes, m);
      }
    }
  }

  // --------------------------------------------------------- where it falls short

  /** What one shedding leaves of `n` unprotected instruments. */
  function Left(n: nat): nat {
    if n == 0 then 0 else n - if n / 4 > 1 then n / 4 else 1
  }

  lemma {:induction false} DropNothing(ids: seq<int>)
    ensures Drop(ids, {}) == ids
  {
    if ids != [] {
      DropNothing(ids[..|ids| - 1]);
    }
  }

  /** Shedding a list records everything it removes exactly if each victim was asked for once. */
  lemma RepeatsAreLostExactly(ids: seq<int>, protected: set<int>)
    ensures var victims := Victims(ids, protected);
            multiset(ids) == multiset(Drop(ids, victims)) + multiset(victims) <==>
              forall id | id in victims :: multiset(ids)[id] == 1
  {
    hide Drop, Victims;
    VictimsUnprotected(ids, protected);
    DroppedOnceIff(ids, Victims(ids, protected));
  }

  // ---------------------------------------------------------- when it refuses

  /** How many of a mode's instruments may be shed. */
  ghost function Loose(modes: Modes, protected: set<int>, mode: DataMode): nat {
    |Drop(modes.Of(mode), protected)|
  }

  lemma {:induction false} DropCommutes(ids: seq<int>, s: set<int>, t: set<int>)
    ensures Drop(Drop(ids, s), t) == Drop(Drop(ids, t), s)
  {
    if ids != [] {
      var before, last := ids[..|ids| - 1], ids[|ids| - 1];
      DropCommutes(before, s, t);
      DropLast(Drop(before, s), last, t);
      DropLast(Drop(before, t), last, s);
    }
  }

  lemma DropLast(ids: seq<int>, last: int, s: set<int>)
    ensures Drop(ids + [last], s) == Drop(ids, s) + if last in s then [] else [last]
    ensures ids + [] == ids
  {
  }

  lemma {:induction false} DropAppend(a: seq<int>, b: seq<int>, s: set<int>)
    ensures Drop(a + b, s) == Drop(a, s) + Drop(b, s)
  {
    if b == [] {
      assert a + b == a;
    } else {
      var before, last := b[..|b| - 1], b[|b| - 1];
      DropAppend(a, before, s);
      assert a + b == (a + before) + [last];
      DropLast(a + before, last, s);
    }
  }

  lemma {:induction false} DropTwice(ids: seq<int>, s: set<int>)
    ensures Drop(Keep(ids, s), s) == [] && Drop(Drop(ids, s), s) == Drop(ids, s)
    ensures |Keep(ids, s)| + |Drop(ids, s)| == |ids|
  {
    if ids != [] {
      var before, last := ids[..|ids| - 1], ids[|ids| - 1];
      DropTwice(before, s);
      DropLast(Keep(before, s), last, s);
      DropLast(Drop(before, s), last, s);
    }
  }

  lemma SizeOfDistinct(q: seq<int>)
    requires forall id :: multiset(q)[id] <= 1
    ensures |set id | id in q| == |q|
  {
    var s := set id | id in q;
    forall id ensures multiset(s)[id] == multiset(q)[id] {
      assert id in multiset(q) <==> id in q;
    }
    assert multiset(s) == multiset(q);
  }

  lemma {:induction false} TailOfKept(ids: seq<int>, protected: set<int>, k: nat, i: nat, j: nat)
    requires i < j < |ids| && k <= |Drop(ids, protected)|
    requires forall a, b | 0 <= a < b < |ids| && ids[b] !in protected :: ids[a] != ids[b]
    requires ids[i] in Drop(ids, protected)[k..] && ids[j] !in protected
    ensures ids[j] in Drop(ids, protected)[k..]
  {
    var n := |ids| - 1;
    var before, last := ids[..n], ids[n];
    var kept, all := Drop(before, protected), Drop(ids, protected);
    if last in protected {
      assert all == kept;
      TailOfKept(before, protected, k, i, j);
    } else {
      assert all[|all| - 1] == last && |all| == |kept| + 1;
      assert k < |all|;
      assert all[k..][|all| - 1 - k] == last;
      if j < n {
        assert all[k..] == kept[k..] + [last];
        TailOfKept(before, protected, k, i, j);
      }
    }
  }

  /** What is shed is the tail of a mode's list: whatever unprotected instrument comes after a victim is one too. */
  lemma ShedTakesTheTail(ids: seq<int>, protected: set<int>, i: nat, j: nat)
    requires i < j < |ids| && (forall a, b | 0 <= a < b < |ids| && ids[b] !in protected :: ids[a] != ids[b])
    requires ids[i] in Victims(ids, protected) && ids[j] !in protected
    ensures ids[j] in Victims(ids, protected)
  {
    hide Drop;
    TailOfKept(ids, protected, Left(|Drop(ids, protected)|), i, j);
  }

  ghost function Elements(ids: seq<int>): set<int> {
    set id | id in ids
  }

  /** A quarter of `n`, rounded down, but at least one. */
  ghost predicate IsQuarter(k: nat, n: nat) {
    k >= 1 && (k == 1 || 4 * k <= n) && 4 * (k + 1) > n
  }

  /** The victims are the last quarter of a mode's unprotected instruments, rounded down, and at least one. */
  lemma ShedIsAQuarter(ids: seq<int>, protected: set<int>)
    ensures var loose, victims := Drop(ids, protected), Victims(ids, protected);
            if loose == [] then victims == {} else
              exists k: nat ::
                IsQuarter(k, |loose|) && k <= |loose| && victims == Elements(loose[|loose| - k..])
  {
    hide Drop;
    var loose := Drop(ids, protected);
    if loose != [] {
      var k := if |loose| / 4 > 1 then |loose| / 4 else 1;
      assert IsQuarter(k, |loose|);
      assert Victims(ids, protected) == Elements(loose[|loose| - k..]);
    }
  }

  /** The ladder's first rung, where FULL has something unprotected: that moves to GREEKS, and nothing is dropped. */
  lemma LadderStartsByDemoting(request: Request)
    requires exists id :: id in request.modes.Of(Full) && id !in request.protected
    ensures var modes, rungs := request.modes, Rungs(request);
            && rungs != [] && rungs[0].steps == [DropDepthFarStrikes] && rungs[0].dropped == []
            && (forall id :: id in rungs[0].modes.Of(Full) <==> id in modes.Of(Full) && id in request.protected)
            && (forall id :: id in rungs[0].modes.Of(Greeks) <==>
                  id in modes.Of(Greeks) || (id in modes.Of(Full) && id !in request.protected))
            && rungs[0].modes.Of(Ltpc) == modes.Of(Ltpc)
            && rungs[0].modes.All() == modes.All()
  {
    hide Keep, Drop, ShedRungs;
    KeepDropMembers(request.modes.Of(Full), request.protected);
    BaseIsRequest(request);
  }

  lemma DropsNothingIff(ids: seq<int>, s: set<int>)
    ensures Drop(ids, s) == [] <==> forall id | id in ids :: id in s
  {
    KeepDropMembers(ids, s);
    if Drop(ids, s) != [] {
      assert Drop(ids, s)[0] in Drop(ids, s);
    }
  }

  lemma {:induction false} ShedSteps(rung: Rung, protected: set<int>, steps: seq<DegradationStep>, i: nat)
    requires i < |ShedRungs(rung, protected, steps)|
    ensures i < |steps| && ShedRungs(rung, protected, steps)[i].steps == rung.steps + steps[..i + 1]
    decreases |steps|
  {
    hide Shed;
    var (modes, shed) := Shed(rung.modes.order, rung.modes, protected);
    var next := Rung(modes, rung.steps + [steps[0]], rung.dropped + shed);
    if i > 0 {
      ShedSteps(next, protected, steps[1..], i - 1);
      assert steps[..i + 1] == [steps[0]] + steps[1..][..i];
    } else {
      assert steps[..1] == [steps[0]];
    }
  }

  lemma PrefixAfter(first: DegradationStep, steps: seq<DegradationStep>, i: nat)
    ensures i <= |steps| ==> [first] + steps[..i] <= [first] + steps && [first] + [] == [first]
  {
  }

  /** The steps of a plan name, in the ladder's order, what was done: a demotion if there was something to demote, then
      each shedding. */
  lemma RungSteps(request: Request, i: nat)
    requires i < |Rungs(request)|
    ensures var demotes := exists id :: id in request.modes.Of(Full) && id !in request.protected;
            var ladder := [NarrowStrikeBand, DropBackExpiries, DropNonPrimaryUnderlyings];
            |Rungs(request)[i].steps| == i + 1
            && Rungs(request)[i].steps <= if demotes then [DropDepthFarStrikes] + ladder else ladder
  {
    hide ShedRungs, Demote, Drop;
    DropsNothingIff(request.modes.Of(Full), request.protected);
    var protected := request.protected;
    if CanDemote(request) {
      var demoted := Rung(Demote(request.modes, protected), [DropDepthFarStrikes], []);
      if i > 0 {
        ShedSteps(demoted, protected, SHED_STEPS, i - 1);
        assert Rungs(request)[i] == ShedRungs(demoted, protected, SHED_STEPS)[i - 1];
      } else {
        assert SHED_STEPS[..0] == [];
      }
      PrefixAfter(DropDepthFarStrikes, SHED_STEPS, i);
    } else {
      var rung := Rung(request.modes, [], []);
      assert Rungs(request) == ShedRungs(rung, protected, SHED_STEPS);
      ShedSteps(rung, protected, SHED_STEPS, i);
      assert Rungs(request)[i].steps == SHED_STEPS[..i + 1];
      assert forall id | id in request.modes.Of(Full) :: id in protected;
    }
  }

  lemma {:induction false} SizeOfTail(q: seq<int>, k: nat)
    requires k <= |q| && forall id :: multiset(q)[id] <= 1
    ensures |set id | id in q[k..]| == |q| - k
  {
    var tail := q[k..];
    assert q == q[..k] + tail;
    forall id ensures multiset(tail)[id] <= 1 {
      assert multiset(q)[id] == multiset(q[..k])[id] + multiset(tail)[id];
    }
    SizeOfDistinct(tail);
  }

  /** Shedding a list takes its victims and leaves `Left` of its loose instruments. */
  lemma ShedLeaves(ids: seq<int>, protected: set<int>)
    requires LooseOnce(ids, protected)
    ensures var loose, after := |Drop(ids, protected)|, Drop(ids, Victims(ids, protected));
            && |Victims(ids, protected)| == loose - Left(loose)
            && |after| == |ids| - (loose - Left(loose))
            && |Drop(after, protected)| == Left(loose)
            && LooseOnce(after, protected)
  {
    hide Drop, Left, Keep;
    var unprotected, victims := Drop(ids, protected), Victims(ids, protected);
    VictimsUnprotected(ids, protected);
    KeepDropMembers(ids, protected);
    DropCounts(ids, protected);
    DropCounts(ids, victims);
    if unprotected == [] {
      LeftOfNone();
      DropNothing(ids);
    } else {
      LeftShrinks(|unprotected|, 1);
      SizeOfTail(unprotected, Left(|unprotected|));
      LeftIs(|unprotected|);
    }
    DroppedSizes(ids, victims);
    DroppedSizes(unprotected, victims);
    DropCommutes(ids, victims, protected);
  }

  lemma LeftIs(n: nat)
    ensures n > 0 ==> Left(n) == n - if n / 4 > 1 then n / 4 else 1
  {
  }

  /** Dropping from a list instruments it holds once makes it shorter by as many. */
  lemma DroppedSizes(ids: seq<int>, victims: set<int>)
    requires forall id | id in victims :: multiset(ids)[id] == 1
    ensures |Drop(ids, victims)| == |ids| - |victims|
  {
    hide Drop;
    forall id | id in victims ensures id in ids {
      assert id in multiset(ids);
    }
    DroppedOnceIff(ids, victims);
    assert |multiset(ids)| == |multiset(Drop(ids, victims))| + |multiset(victims)|;
  }

  /** What `times` sheddings leave of a mode. */
  ghost function Shrunk(modes: Modes, protected: set<int>, mode: DataMode, times: nat): int {
    |modes.Of(mode)| - Loose(modes, protected, mode) + LeftAfter(Loose(modes, protected, mode), times)
  }

  ghost predicate ShrunkBy(modes: Modes, after: Modes, protected: set<int>, mode: DataMode) {
    && Loose(after, protected, mode) == Left(Loose(modes, protected, mode))
    && |after.Of(mode)| == |modes.Of(mode)| - Loose(modes, protected, mode) + Loose(after, protected, mode)
  }

  lemma {:induction false} ShedCounts(order: seq<DataMode>, modes: Modes, protected: set<int>)
    requires forall i, j | 0 <= i < j < |order| :: order[i] != order[j]
    requires forall m | m in order :: m in modes.ids && LooseOnce(modes.Of(m), protected)
    ensures var (after, shed) := Shed(order, modes, protected);
            && after.order == modes.order && after.ids.Keys == modes.ids.Keys
            && (forall m | m in order :: ShrunkBy(modes, after, protected, m) && LooseOnce(after.Of(m), protected))
            && (forall m | m !in order :: after.Of(m) == modes.Of(m))
            && (shed == [] <==> forall m | m in order :: Loose(modes, protected, m) == 0)
  {
    hide Victims, Drop, Left, ShrunkBy, Loose, Modes.Of, LooseOnce;
    if order != [] {
      var mode, earlier := order[|order| - 1], order[..|order| - 1];
      ShedCounts(earlier, modes, protected);
      var (before, shed) := Shed(earlier, modes, protected);
      assert order == earlier + [mode];
      ShedModeCounts(modes, before, protected, mode);
      var victims := Victims(modes.Of(mode), protected);
      SortedElements(victims, AtMost());
      var after := if victims == {} then before
                   else before.(ids := before.ids[mode := Drop(before.Of(mode), victims)]);
      forall m | m in earlier ensures ShrunkBy(modes, after, protected, m) && LooseOnce(after.Of(m), protected) {
        SameOf(modes, before, after, protected, m);
      }
    }
  }

  lemma SameOf(modes: Modes, before: Modes, after: Modes, protected: set<int>, mode: DataMode)
    ensures before.Of(mode) == after.Of(mode) && ShrunkBy(modes, before, protected, mode) ==>
              ShrunkBy(modes, after, protected, mode)
  {
  }

  lemma ShedModeCounts(modes: Modes, before: Modes, protected: set<int>, mode: DataMode)
    requires mode in before.ids && before.Of(mode) == modes.Of(mode)
    requires LooseOnce(modes.Of(mode), protected)
    ensures var victims := Victims(modes.Of(mode), protected);
            var after := if victims == {} then before
                         else before.(ids := before.ids[mode := Drop(modes.Of(mode), victims)]);
            && ShrunkBy(modes, after, protected, mode) && LooseOnce(after.Of(mode), protected)
            && (forall m | m != mode :: after.Of(m) == before.Of(m))
            && (victims == {} <==> Loose(modes, protected, mode) == 0)
  {
    hide Victims, Drop, Left, LooseOnce;
    ShedLeaves(modes.Of(mode), protected);
    VictimsUnprotected(modes.Of(mode), protected);
    LeftOfNone();
  }

  lemma LeftOfNone()
    ensures Left(0) == 0
  {
  }

  /** What is left after so many sheddings. */
  function LeftAfter(n: nat, times: nat): nat {
    if times == 0 then n else LeftAfter(Left(n), times - 1)
  }

  lemma {:induction false} LeftShrinks(n: nat, times: nat)
    ensures LeftAfter(n, times) <= n
    ensures times > 0 ==> LeftAfter(n, times) <= Left(n) <= n
    ensures LeftAfter(0, times) == 0
  {
    if times > 0 {
      LeftShrinks(Left(n), times - 1);
    }
  }

  lemma DivMonotone(x: int, y: int, d: int)
    requires x <= y && d > 0
    ensures x / d <= y / d
  {
    var p, q := x / d, y / d;
    var k := p - q;
    assert d * p == d * q + d * k by { assert p == q + k; }
    assert k >= 1 ==> d * k >= d;
  }

  lemma CeilDivMonotone(m: int, n: int, d: int)
    requires 0 <= m <= n && d > 0
    ensures 0 <= CeilDiv(m, d) <= CeilDiv(n, d)
    ensures n > 0 ==> CeilDiv(n, d) >= 1
  {
    hide CeilDiv;
    CeilDivIs(m, d);
    CeilDivIs(n, d);
    DivMonotone(-n, -m, d);
    DivMonotone(-m, 0, d);
    DivUnique(0, d, 0, 0);
    DivUnique(-1, d, -1, d - 1);
    if n > 0 { DivMonotone(-n, -1, d); }
  }

  lemma CeilDivIs(n: int, d: int)
    requires d > 0
    ensures CeilDiv(n, d) == -((-n) / d)
  {
  }

  /** With fewer instruments of either kind, what fitted still fits. */
  lemma FewerFit(b: Budget, full: int, shared: int, lessFull: int, lessShared: int)
    requires CountsFit(b, full, shared) && 0 <= lessFull <= full && 0 <= lessShared <= shared
    ensures CountsFit(b, lessFull, lessShared)
  {
    hide Budget.Usable, CeilDiv;
    var per := if b.Usable(Full) >= b.Usable(Greeks) then b.Usable(Full) else b.Usable(Greeks);
    if per > 0 {
      CeilDivMonotone(lessFull, full, per);
      CeilDivMonotone(lessShared, shared, per);
      CeilDivMonotone(0, 0, per);
    }
  }

  ghost predicate ShrunkFits(b: Budget, modes: Modes, protected: set<int>, times: nat) {
    CountsFit(b, Shrunk(modes, protected, Full, times),
              Shrunk(modes, protected, Ltpc, times) + Shrunk(modes, protected, Greeks, times))
  }

  ghost predicate SomeFits(b: Budget, rungs: seq<Rung>) {
    exists r :: r in rungs && Fits(b, r.modes)
  }

  /** Among the rungs from here, one fits exactly when the last would. */
  lemma {:induction false} LadderReaches(b: Budget, rung: Rung, protected: set<int>, steps: seq<DegradationStep>)
    requires rung.modes.Valid() && AllLooseOnce(rung.modes, protected)
    ensures (Fits(b, rung.modes) || SomeFits(b, ShedRungs(rung, protected, steps)))
              <==> ShrunkFits(b, rung.modes, protected, |steps|)
    decreases |steps|
  {
    hide Shed, Fits, Left, Loose, AllLooseOnce, ShrunkFits, ShrunkBy, Modes.Valid, SomeFits;
    if steps == [] {
      NoSteps(b, rung, protected);
      return;
    }
    var (modes, shed) := Shed(rung.modes.order, rung.modes, protected);
    var next := Rung(modes, rung.steps + [steps[0]], rung.dropped + shed);
    var rest := ShedRungs(next, protected, steps[1..]);
    ShedAll(rung.modes, protected);
    LadderReaches(b, next, protected, steps[1..]);
    ShrinkOnce(b, rung.modes, modes, protected, |steps|);
    if shed == [] {
      ShrinkNothing(b, rung.modes, protected, |steps|);
      NoneOfNothing(b);
    } else {
      SomeFitsSplit(b, next, rest);
      if Fits(b, rung.modes) {
        StillFits(b, rung.modes, protected, |steps|);
      }
    }
  }

  lemma NoneOfNothing(b: Budget)
    ensures !SomeFits(b, [])
  {
  }

  lemma NoSteps(b: Budget, rung: Rung, protected: set<int>)
    ensures (Fits(b, rung.modes) || SomeFits(b, ShedRungs(rung, protected, [])))
              <==> ShrunkFits(b, rung.modes, protected, 0)
  {
  }

  lemma ShedAll(modes: Modes, protected: set<int>)
    requires modes.Valid() && AllLooseOnce(modes, protected)
    ensures var (after, shed) := Shed(modes.order, modes, protected);
            && after.Valid() && AllLooseOnce(after, protected)
            && (forall m: DataMode :: ShrunkBy(modes, after, protected, m))
            && (shed == [] ==> forall m: DataMode :: Loose(modes, protected, m) == 0)
  {
    hide Shed, Left, Loose, LooseOnce, ShrunkBy;
    ShedCounts(modes.order, modes, protected);
    AbsentModes(modes, Shed(modes.order, modes, protected).0, protected);
  }

  lemma SomeFitsSplit(b: Budget, first: Rung, rest: seq<Rung>)
    ensures SomeFits(b, [first] + rest) <==> Fits(b, first.modes) || SomeFits(b, rest)
  {
  }

  /** A mode nobody asked for has nothing to shed. */
  lemma AbsentModes(modes: Modes, after: Modes, protected: set<int>)
    requires modes.Valid() && after.order == modes.order && after.ids.Keys == modes.ids.Keys
    requires forall m | m in modes.order :: ShrunkBy(modes, after, protected, m)
    ensures after.Valid()
    ensures forall m: DataMode :: ShrunkBy(modes, after, protected, m)
    ensures forall m: DataMode | m !in modes.order :: Loose(modes, protected, m) == 0
  {
  }

  lemma ShrinkOnce(b: Budget, modes: Modes, after: Modes, protected: set<int>, times: nat)
    requires times > 0 && forall m: DataMode :: ShrunkBy(modes, after, protected, m)
    ensures ShrunkFits(b, after, protected, times - 1) <==> ShrunkFits(b, modes, protected, times)
  {
    hide Left, Loose, CountsFit;
    forall m: DataMode ensures Shrunk(after, protected, m, times - 1) == Shrunk(modes, protected, m, times) {
      assert ShrunkBy(modes, after, protected, m);
      assert LeftAfter(Loose(modes, protected, m), times)
          == LeftAfter(Left(Loose(modes, protected, m)), times - 1);
    }
  }

  lemma ShrinkNothing(b: Budget, modes: Modes, protected: set<int>, times: nat)
    requires forall m: DataMode :: Loose(modes, protected, m) == 0
    ensures ShrunkFits(b, modes, protected, times) <==> Fits(b, modes)
  {
    hide Loose, CountsFit, LeftAfter;
    LeftShrinks(0, times);
    assert forall m: DataMode :: Shrunk(modes, protected, m, times) == |modes.Of(m)|;
  }

  lemma LooseAtMost(modes: Modes, protected: set<int>)
    ensures forall m: DataMode :: |modes.Of(m)| >= Loose(modes, protected, m)
  {
    forall m: DataMode ensures |modes.Of(m)| >= Loose(modes, protected, m) {
      DropTwice(modes.Of(m), protected);
    }
  }

  lemma StillFits(b: Budget, modes: Modes, protected: set<int>, times: nat)
    requires Fits(b, modes)
    ensures ShrunkFits(b, modes, protected, times)
  {
    hide CountsFit, LeftAfter;
    LooseAtMost(modes, protected);
    forall m: DataMode ensures 0 <= Shrunk(modes, protected, m, times) <= |modes.Of(m)| {
      LeftShrinks(Loose(modes, protected, m), times);
    }
    FewerFit(b, |modes.Of(Full)|, |modes.Of(Ltpc)| + |modes.Of(Greeks)|, Shrunk(modes, protected, Full, times),
             Shrunk(modes, protected, Ltpc, times) + Shrunk(modes, protected, Greeks, times));
  }

  lemma DemotedValid(modes: Modes, protected: set<int>)
    ensures modes.Valid() && Full in modes.ids ==> Demote(modes, protected).Valid()
  {
    hide Keep, Drop;
  }

  lemma Demoted(modes: Modes, protected: set<int>)
    ensures var after := Demote(modes, protected);
            && Loose(after, protected, Full) == 0
            && |after.Of(Full)| == |modes.Of(Full)| - Loose(modes, protected, Full)
            && Loose(after, protected, Greeks) == Loose(modes, protected, Greeks) + Loose(modes, protected, Full)
            && |after.Of(Greeks)| == |modes.Of(Greeks)| + Loose(modes, protected, Full)
            && after.Of(Ltpc) == modes.Of(Ltpc)
  {
    hide Keep, Drop;
    DropTwice(modes.Of(Full), protected);
    DropAppend(modes.Of(Greeks), Drop(modes.Of(Full), protected), protected);
  }

  /** Exactly what is refused: a request that does not fit and would not fit with every loose FULL instrument
      moved to GREEKS and a quarter of each mode's loose instruments shed three times. */
  lemma RefusedExactly(b: Budget, request: Request)
    requires request.modes.Valid() && Sheddable(request)
    ensures var modes, protected := request.modes, request.protected;
            var full := |modes.Of(Full)| - Loose(modes, protected, Full);
            var greeks := |modes.Of(Greeks)| - Loose(modes, protected, Greeks)
                        + LeftAfter(Loose(modes, protected, Greeks) + Loose(modes, protected, Full), 3);
            var ltpc := |modes.Of(Ltpc)| - Loose(modes, protected, Ltpc) + LeftAfter(Loose(modes, protected, Ltpc), 3);
            Plan(b, request).verdict.Unsatisfiable? <==> !Fits(b, modes) && !CountsFit(b, full, ltpc + greeks)
  {
    hide CountsFit, ShedRungs, Drop, Keep, Plan, Allocate, Demote, LeftAfter, SomeFits, Modes.Valid, LooseOnce;
    hide Sheddable;
    var modes, protected := request.modes, request.protected;
    LooseAtMost(modes, protected);
    RefusedIff(b, request);
    LeftShrinks(0, 3);
    assert AllLooseOnce(Base(request), protected) by {
      forall m: DataMode ensures LooseOnce(Base(request).Of(m), protected) {
        BaseLooseOnce(request, m);
      }
    }
    if CanDemote(request) {
      var demoted := Rung(Demote(modes, protected), [DropDepthFarStrikes], []);
      Demoted(modes, protected);
      DemotedValid(modes, protected);
      LadderReaches(b, demoted, protected, SHED_STEPS);
      SomeFitsSplit(b, demoted, ShedRungs(demoted, protected, SHED_STEPS));
    } else {
      LadderReaches(b, Rung(modes, [], []), protected, SHED_STEPS);
    }
  }

  lemma RefusedIff(b: Budget, request: Request)
    ensures Plan(b, request).verdict.Unsatisfiable? <==> !Fits(b, request.modes) && !SomeFits(b, Rungs(request))
  {
  }

  /** The refusal says the protected instruments alone do not fit, but the ladder stops after three sheddings of a
      quarter. With nothing protected, where the empty set would fit, a request is refused as soon as it does not fit
      and what those sheddings leave exceeds the shared quota. */
  lemma RefusedWithNothingProtected(b: Budget, modes: Modes)
    requires b.Valid() && b.Usable(Ltpc) > 0 && b.Usable(Full) >= 0
    requires modes.Valid() && Sheddable(Request(modes, {}))
    ensures var shared, ltpc := |modes.Of(Greeks)| + |modes.Of(Full)|, |modes.Of(Ltpc)|;
            Plan(b, Request(modes, {})).verdict.Unsatisfiable? <==>
              !Fits(b, modes) && LeftAfter(shared, 3) + LeftAfter(ltpc, 3) > b.Usable(Ltpc)
    ensures Fits(b, Modes([], map[]))
  {
    hide Budget.Usable, Plan, LeftAfter, CountsFit, Drop, Modes.Valid, Sheddable;
    RefusedExactly(b, Request(modes, {}));
    forall m: DataMode ensures Loose(modes, {}, m) == |modes.Of(m)| {
      DropNothing(modes.Of(m));
    }
    LtpcAlone(b, LeftAfter(|modes.Of(Greeks)| + |modes.Of(Full)|, 3) + LeftAfter(|modes.Of(Ltpc)|, 3));
    LtpcAlone(b, 0);
  }

  lemma LtpcAlone(b: Budget, n: nat)
    requires b.Valid() && b.Usable(Ltpc) > 0 && b.Usable(Full) >= 0
    ensures CountsFit(b, 0, n) <==> n <= b.Usable(Ltpc)
  {
    hide Budget.Usable;
    SharedUsable(b);
    var per := if b.Usable(Full) >= b.Usable(Greeks) then b.Usable(Full) else b.Usable(Greeks);
    if 0 < n <= b.Usable(Ltpc) {
      CeilDivOne(n, per);
    }
  }

  lemma {:induction false} DropShortens(ids: seq<int>, gone: set<int>)
    ensures |Drop(ids, gone)| <= |ids|
  {
    if ids != [] {
      DropShortens(ids[..|ids| - 1], gone);
    }
  }

  lemma {:induction false} ShedNeverGrows(order: seq<DataMode>, modes: Modes, protected: set<int>)
    ensures forall m: DataMode :: |Shed(order, modes, protected).0.Of(m)| <= |modes.Of(m)|
  {
    hide Drop, Victims;
    if order != [] {
      var mode := order[|order| - 1];
      ShedNeverGrows(order[..|order| - 1], modes, protected);
      var (before, _) := Shed(order[..|order| - 1], modes, protected);
      DropShortens(before.Of(mode), Victims(before.Of(mode), protected));
    }
  }

  lemma {:induction false} LastFitsFirst(b: Budget, rung: Rung, protected: set<int>, steps: seq<DegradationStep>)
    ensures var rungs := ShedRungs(rung, protected, steps);
            var last := if rungs == [] then rung else rungs[|rungs| - 1];
            Fits(b, rung.modes) || SomeFits(b, rungs) <==> Fits(b, last.modes)
    decreases |steps|
  {
    hide Shed, CountsFit, SomeFits;
    var rungs := ShedRungs(rung, protected, steps);
    if rungs == [] {
      NoneOfNothing(b);
    } else {
      var (modes, shed) := Shed(rung.modes.order, rung.modes, protected);
      var next := Rung(modes, rung.steps + [steps[0]], rung.dropped + shed);
      LastFitsFirst(b, next, protected, steps[1..]);
      SomeFitsSplit(b, next, ShedRungs(next, protected, steps[1..]));
      ShedNeverGrows(rung.modes.order, rung.modes, protected);
      if Fits(b, rung.modes) {
        FewerFit(b, |rung.modes.Of(Full)|, |rung.modes.Of(Ltpc)| + |rung.modes.Of(Greeks)|,
                 |modes.Of(Full)|, |modes.Of(Ltpc)| + |modes.Of(Greeks)|);
      }
    }
  }

  /** Repeats or not, a request is refused exactly when neither it nor the last rung of the ladder fits. */
  lemma RefusedIffLastFails(b: Budget, request: Request)
    ensures Plan(b, request).verdict.Unsatisfiable? <==> !Fits(b, request.modes) && !Fits(b, LastRung(request).modes)
  {
    hide Fits, ShedRungs, Plan, SomeFits, Demote;
    RefusedIff(b, request);
    if CanDemote(request) {
      var demoted := Rung(Demote(request.modes, request.protected), [DropDepthFarStrikes], []);
      LastFitsFirst(b, demoted, request.protected, SHED_STEPS);
      SomeFitsSplit(b, demoted, ShedRungs(demoted, request.protected, SHED_STEPS));
    } else {
      LastFitsFirst(b, Rung(request.modes, [], []), request.protected, SHED_STEPS);
    }
  }

  // ----------------------------------------------------------------- the planner

  ghost predicate NoneFits(b: Budget, rungs: seq<Rung>) {
    forall r | r in rungs :: !Fits(b, r.modes)
  }

  lemma {:induction false} FirstFitAfter(b: Budget, checked: seq<Rung>, rest: seq<Rung>)
    requires NoneFits(b, checked)
    ensures FirstFit(b, checked + rest) == |checked| + FirstFit(b, rest)
    decreases |checked|
  {
    hide Fits;
    if checked == [] {
      assert checked + rest == rest;
    } else {
      assert checked[0] in checked;
      FirstFitAfter(b, checked[1..], rest);
      assert (checked + rest)[1..] == checked[1..] + rest;
    }
  }

  /** A rung that fits, after a list of rungs that do not, is the plan. */
  lemma PlanIsRung(b: Budget, request: Request, checked: seq<Rung>, rung: Rung, rest: seq<Rung>)
    requires !Fits(b, request.modes) && Rungs(request) == checked + ([rung] + rest)
    requires NoneFits(b, checked) && Fits(b, rung.modes)
    ensures Roomy(b, rung.modes)
    ensures Plan(b, request) == CapacityResult(Degraded, Allocate(b, rung.modes), request.modes.Total(),
                                               rung.modes.Total(), rung.steps, rung.dropped)
  {
    hide Fits, Rungs, Allocate;
    FitsIsRoomy(b, rung.modes);
    FirstFitAfter(b, checked, [rung] + rest);
  }

  lemma PlanIsRefusal(b: Budget, request: Request)
    requires !Fits(b, request.modes) && NoneFits(b, Rungs(request))
    ensures Plan(b, request) == CapacityResult(Unsatisfiable, [], request.modes.Total(), 0,
                                               LastRung(request).steps, LastRung(request).dropped)
  {
    hide Fits, Rungs, Allocate;
    var rungs := Rungs(request);
    FirstFitAfter(b, rungs, []);
    assert rungs + [] == rungs;
  }

  lemma SlicesFrom(mode: DataMode, ids: seq<int>, perConnection: nat, index: nat, start: nat, end: nat)
    requires perConnection > 0 && start < |ids|
    requires end == if start + perConnection < |ids| then start + perConnection else |ids|
    ensures Slices(mode, ids[start..], perConnection, index)
              == [Allocation(index, mode, ids[start..end])] + Slices(mode, ids[end..], perConnection, index + 1)
  {
    assert ids[start..][end - start..] == ids[end..];
    assert ids[start..][..end - start] == ids[start..end];
  }

  class SubscriptionPlanner {
    const budget: Budget

    constructor (budget: Budget)
      requires budget.Valid()
      ensures this.budget == budget
    {
      this.budget := budget;
    }

    method AllocateMode(modes: Modes, mode: DataMode, allocations: seq<Allocation>) returns (r: seq<Allocation>)
      requires Roomy(budget, modes)
      ensures r == allocations + ModeSlices(budget, modes, mode, |allocations|)
    {
      hide Budget.Usable;
      r := allocations;
      var ids := modes.Of(mode);
      if ids == [] {
        return;
      }
      var perConnection := budget.Usable(mode);
      var start := 0;
      while start < |ids|
        invariant 0 <= start <= |ids|
        invariant allocations + Slices(mode, ids, perConnection, |allocations|)
                    == r + Slices(mode, ids[start..], perConnection, |r|)
      {
        var end := if start + perConnection < |ids| then start + perConnection else |ids|;
        SlicesFrom(mode, ids, perConnection, |r|, start, end);
        r := r + [Allocation(|r|, mode, ids[start..end])];
        start := end;
      }
    }

    method AllocateAll(modes: Modes) returns (r: seq<Allocation>)
      requires Roomy(budget, modes)
      ensures r == Allocate(budget, modes)
    {
      hide ModeSlices;
      r := AllocateMode(modes, Full, []);
      r := AllocateMode(modes, Greeks, r);
      r := AllocateMode(modes, Ltpc, r);
    }

    method ShedTail(modes: Modes, protected: set<int>) returns (after: Modes, shed: seq<int>)
      ensures (after, shed) == Shed(modes.order, modes, protected)
    {
      hide Victims, Drop;
      after, shed := modes, [];
      for i := 0 to |modes.order|
        invariant (after, shed) == Shed(modes.order[..i], modes, protected)
      {
        assert modes.order[..i + 1][..|modes.order[..i + 1]| - 1] == modes.order[..i];
        var mode := modes.order[i];
        var victims := Victims(after.Of(mode), protected);
        if victims != {} {
          after := after.(ids := after.ids[mode := Drop(after.Of(mode), victims)]);
          shed := shed + Sorted(victims, AtMost());
        }
      }
      assert modes.order[..|modes.order|] == modes.order;
    }

    /** The ladder from its second rung, shedding from `modes` step by step. */
    method DegradeByShedding(
      request: Request, start: Modes, startSteps: seq<DegradationStep>, startDropped: seq<int>,
      ghost before: seq<Rung>)
      returns (r: CapacityResult)
      requires !Fits(budget, request.modes) && NoneFits(budget, before)
      requires Rungs(request)
                 == before + ShedRungs(Rung(start, startSteps, startDropped), request.protected, SHED_STEPS)
      requires LastOf(request, before) == Rung(start, startSteps, startDropped)
      ensures r == Plan(budget, request)
    {
      hide Fits, Allocate, Shed, Plan, Roomy, Rungs;
      var total := request.modes.Total();
      var modes, steps, dropped := start, startSteps, startDropped;
      ghost var checked := before;
      ghost var current := Rung(start, startSteps, startDropped);
      var i := 0;
      while i < |SHED_STEPS|
        invariant 0 <= i <= |SHED_STEPS|
        invariant current == Rung(modes, steps, dropped) == LastOf(request, checked)
        invariant NoneFits(budget, checked)
        invariant Rungs(request) == checked + ShedRungs(current, request.protected, SHED_STEPS[i..])
      {
        var after, shed := ShedTail(modes, request.protected);
        if shed == [] {
          break;
        }
        modes, steps, dropped := after, steps + [SHED_STEPS[i]], dropped + shed;
        current := Rung(modes, steps, dropped);
        i := i + 1;
        ghost var rest := ShedRungs(current, request.protected, SHED_STEPS[i..]);
        if Fits(budget, modes) {
          PlanIsRung(budget, request, checked, current, rest);
          var allocations := AllocateAll(modes);
          return CapacityResult(Degraded, allocations, total, modes.Total(), steps, dropped);
        }
        assert checked + ([current] + rest) == (checked + [current]) + rest;
        checked := checked + [current];
      }
      assert Rungs(request) == checked;
      PlanIsRefusal(budget, request);
      return CapacityResult(Unsatisfiable, [], total, 0, steps, dropped);
    }

    /** The result of the first rung that fits, or the refusal. */
    method Degrade(request: Request) returns (r: CapacityResult)
      requires !Fits(budget, request.modes)
      ensures r == Plan(budget, request)
    {
      hide Fits, Allocate, Shed, Demote, Plan, Roomy, CanDemote;
      var total := request.modes.Total();
      var modes, steps, dropped := request.modes, [], [];
      ghost var checked: seq<Rung> := [];
      if CanDemote(request) {
        steps := [DropDepthFarStrikes];
        modes := Demote(request.modes, request.protected);
        ghost var demoted := Rung(modes, steps, dropped);
        ghost var rest := ShedRungs(demoted, request.protected, SHED_STEPS);
        assert Rungs(request) == checked + ([demoted] + rest) == [demoted] + rest;
        if Fits(budget, modes) {
          PlanIsRung(budget, request, checked, demoted, rest);
          var allocations := AllocateAll(modes);
          return CapacityResult(Degraded, allocations, total, modes.Total(), steps, dropped);
        }
        checked := [demoted];
      }
      r := DegradeByShedding(request, modes, steps, dropped, checked);
    }

    /** Plan without degradation if possible, else degrade, else refuse. */
    method PlanFor(request: Request) returns (r: CapacityResult)
      ensures r == Plan(budget, request)
    {
      if Fits(budget, request.modes) {
        FitsIsRoomy(budget, request.modes);
        var allocations, total := [], request.modes.Total();
        allocations := AllocateAll(request.modes);
        return CapacityResult(Accepted, allocations, total, total, [], []);
      }
      r := Degrade(request);
    }
  }
}
