// The migration tracker: measurements advance, confirm and fade one live migration
// per key. It segments each key's measurements into maximal runs, online.

module Migration {
  import opened Wrappers
  import opened Sums

  datatype Status = Forming | Confirmed | Faded

  datatype Direction = Up | Down

  datatype OptionSide = Call | Put

  /** At most one migration is live per expiry, side and direction; the destination is no part of it. */
  datatype MigrationKey = MigrationKey(expiry: int, side: OptionSide, direction: Direction)

  datatype Measurement = Measurement(
    at: int,
    expiry: int,
    side: OptionSide,
    origin: real,
    destination: real,
    magnitude: real)
  {
    function Heading(): Direction {
      if destination >= origin then Up else Down
    }

    function Key(): MigrationKey {
      MigrationKey(expiry, side, Heading())
    }
  }

  datatype Evidence =
    | Detected(origin: real, destination: real, magnitude: real)
    | Advanced(destination: real, window: nat)
    | FadedAt(at: int)

  datatype Entity = Entity(
    key: MigrationKey,
    origin: real,
    destination: real,
    magnitude: real,
    status: Status,
    firstAt: int,
    lastAt: int,
    windows: nat,
    evidence: seq<Evidence>)

  datatype Settings = Settings(threshold: real, confirmAfter: int) {
    predicate Strong(m: Measurement) {
      !((if m.magnitude < 0.0 then -m.magnitude else m.magnitude) < threshold)
    }
  }

  /** Live migrations by key, faded ones in the order they faded. */
  datatype Tracked = Tracked(live: map<MigrationKey, Entity>, faded: seq<Entity>)

  const NOTHING := Tracked(map[], [])

  function Started(m: Measurement): Entity {
    Entity(m.Key(), m.origin, m.destination, m.magnitude, Forming, m.at, m.at, 1,
           [Detected(m.origin, m.destination, m.magnitude)])
  }

  function Fade(e: Entity, m: Measurement): Entity {
    e.(status := Faded, lastAt := m.at, evidence := e.evidence + [FadedAt(m.at)])
  }

  function Advance(s: Settings, e: Entity, m: Measurement): Entity {
    var windows := e.windows + 1;
    e.(destination := m.destination, magnitude := m.magnitude,
       status := if windows >= s.confirmAfter then Confirmed else e.status,
       lastAt := m.at, windows := windows,
       evidence := e.evidence + [Advanced(m.destination, windows)])
  }

  function Observe(s: Settings, t: Tracked, m: Measurement): (Tracked, Option<Entity>) {
    var key := m.Key();
    if !s.Strong(m) then
      if key in t.live then
        var faded := Fade(t.live[key], m);
        (Tracked(t.live - {key}, t.faded + [faded]), Some(faded))
      else (t, None)
    else
      var next := if key in t.live then Advance(s, t.live[key], m) else Started(m);
      (t.(live := t.live[key := next]), Some(next))
  }

  function Track(s: Settings, ms: seq<Measurement>): Tracked {
    if ms == [] then NOTHING else Observe(s, Track(s, ms[..|ms| - 1]), ms[|ms| - 1]).0
  }

  // ------------------------------------------------------- the batch definition

  /** One key's measurements, in order. */
  function Of(ms: seq<Measurement>, key: MigrationKey): seq<Measurement> {
    if ms == [] then [] else
      var last := ms[|ms| - 1];
      Of(ms[..|ms| - 1], key) + if last.Key() == key then [last] else []
  }

  /** `q[i..j]` is a maximal run of strong measurements. */
  ghost predicate IsRun(s: Settings, q: seq<Measurement>, i: nat, j: nat) {
    && i < j <= |q|
    && (forall k | i <= k < j :: s.Strong(q[k]))
    && (i > 0 ==> !s.Strong(q[i - 1]))
    && (j < |q| ==> !s.Strong(q[j]))
  }

  function Steps(q: seq<Measurement>, i: nat, j: nat): seq<Evidence>
    requires i < j <= |q|
    decreases j
  {
    if j == i + 1 then [Detected(q[i].origin, q[i].destination, q[i].magnitude)]
    else Steps(q, i, j - 1) + [Advanced(q[j - 1].destination, j - i)]
  }

  /** The migration a run is: where it began from its first measurement, where it had got to from its last, one
      window for each. It faded, at that time, if a weak measurement followed; else it is confirmed from the second
      window on, once there are enough. */
  function EntityOf(s: Settings, q: seq<Measurement>, i: nat, j: nat): Entity
    requires i < j <= |q|
  {
    var ended := j < |q|;
    Entity(q[i].Key(), q[i].origin, q[j - 1].destination, q[j - 1].magnitude,
           if ended then Faded else if j - i >= 2 && j - i >= s.confirmAfter then Confirmed else Forming,
           q[i].at, if ended then q[j].at else q[j - 1].at, j - i,
           Steps(q, i, j) + if ended then [FadedAt(q[j].at)] else [])
  }

  /** Where the run of strong measurements ending before `j` starts. */
  function RunStart(s: Settings, q: seq<Measurement>, j: nat): (i: nat)
    requires j <= |q|
    ensures i <= j && (forall k | i <= k < j :: s.Strong(q[k])) && (i > 0 ==> !s.Strong(q[i - 1]))
  {
    if j > 0 && s.Strong(q[j - 1]) then RunStart(s, q, j - 1) else j
  }

  /** The migrations whose runs a weak measurement among the first `n` ended, in the order they ended. */
  function Ended(s: Settings, q: seq<Measurement>, n: nat): seq<Entity>
    requires n <= |q|
  {
    if n == 0 then [] else
      var i := RunStart(s, q, n - 1);
      Ended(s, q, n - 1) + if i < n - 1 && !s.Strong(q[n - 1]) then [EntityOf(s, q, i, n - 1)] else []
  }

  /** The migration whose run the measurements end in. */
  function Ongoing(s: Settings, q: seq<Measurement>): Option<Entity> {
    var i := RunStart(s, q, |q|);
    if i < |q| then Some(EntityOf(s, q, i, |q|)) else None
  }

  /** These are exactly the maximal runs: those followed by a weak measurement, and the one that is not. */
  lemma {:induction false} EndedAreTheRuns(s: Settings, q: seq<Measurement>, n: nat)
    requires n <= |q|
    ensures forall e :: e in Ended(s, q, n) <==>
              exists i: nat, j: nat | j < n :: IsRun(s, q, i, j) && e == EntityOf(s, q, i, j)
    decreases n
  {
    hide EntityOf;
    if n > 0 {
      EndedAreTheRuns(s, q, n - 1);
      var start := RunStart(s, q, n - 1);
      forall e ensures e in Ended(s, q, n) <==>
          exists i: nat, j: nat | j < n :: IsRun(s, q, i, j) && e == EntityOf(s, q, i, j)
      {
        if start < n - 1 && !s.Strong(q[n - 1]) && e == EntityOf(s, q, start, n - 1) {
          assert IsRun(s, q, start, n - 1);
        }
        if i: nat, j: nat :| j < n && IsRun(s, q, i, j) && e == EntityOf(s, q, i, j) && j == n - 1 {
        }
      }
    }
  }

  lemma OngoingIsTheLastRun(s: Settings, q: seq<Measurement>)
    ensures forall e :: Ongoing(s, q) == Some(e) <==> exists i: nat :: IsRun(s, q, i, |q|) && e == EntityOf(s, q, i, |q|)
    ensures forall i: nat :: IsRun(s, q, i, |q|) ==> Ongoing(s, q) == Some(EntityOf(s, q, i, |q|))
  {
  }

  // --------------------------------------------------------- online meets batch

  lemma {:induction false} StartIsStable(s: Settings, q: seq<Measurement>, m: Measurement, j: nat)
    requires j <= |q|
    ensures RunStart(s, q + [m], j) == RunStart(s, q, j)
  {
    if j > 0 && s.Strong(q[j - 1]) {
      StartIsStable(s, q, m, j - 1);
    }
  }

  lemma {:induction false} StepsAreStable(q: seq<Measurement>, m: Measurement, i: nat, j: nat)
    requires i < j <= |q|
    ensures Steps(q + [m], i, j) == Steps(q, i, j)
    decreases j
  {
    if j > i + 1 {
      StepsAreStable(q, m, i, j - 1);
    }
  }

  lemma {:induction false} EndedIsStable(s: Settings, q: seq<Measurement>, m: Measurement, n: nat)
    requires n <= |q|
    ensures Ended(s, q + [m], n) == Ended(s, q, n)
    decreases n
  {
    hide RunStart;
    if n > 0 {
      EndedIsStable(s, q, m, n - 1);
      var i := RunStart(s, q, n - 1);
      StartIsStable(s, q, m, n - 1);
      if i < n - 1 {
        StepsAreStable(q, m, i, n - 1);
      }
    }
  }

  lemma EntityFades(s: Settings, q: seq<Measurement>, m: Measurement, i: nat)
    requires i < |q|
    ensures EntityOf(s, q + [m], i, |q|) == Fade(EntityOf(s, q, i, |q|), m)
  {
    hide Steps;
    StepsAreStable(q, m, i, |q|);
    assert Steps(q, i, |q|) + [] == Steps(q, i, |q|);
  }

  lemma EntityAdvances(s: Settings, q: seq<Measurement>, m: Measurement, i: nat)
    requires i < |q|
    ensures EntityOf(s, q + [m], i, |q| + 1) == Advance(s, EntityOf(s, q, i, |q|), m)
  {
    StepsAreStable(q, m, i, |q|);
    assert Steps(q + [m], i, |q| + 1) == Steps(q, i, |q|) + [Advanced(m.destination, |q| + 1 - i)];
  }

  lemma EntityStarts(s: Settings, q: seq<Measurement>, m: Measurement)
    ensures EntityOf(s, q + [m], |q|, |q| + 1) == Started(m)
  {
  }

  /** A weak measurement ends the ongoing run, if there is one. */
  lemma WeakEnds(s: Settings, q: seq<Measurement>, m: Measurement)
    requires !s.Strong(m)
    ensures Ongoing(s, q + [m]) == None
    ensures Ended(s, q + [m], |q| + 1)
              == Ended(s, q, |q|) + if Ongoing(s, q).Some? then [Fade(Ongoing(s, q).value, m)] else []
  {
    hide EntityOf, Fade;
    EndedIsStable(s, q, m, |q|);
    StartIsStable(s, q, m, |q|);
    var i := RunStart(s, q, |q|);
    if i < |q| {
      EntityFades(s, q, m, i);
    }
    assert RunStart(s, q + [m], |q| + 1) == |q + [m]|;
  }

  /** A strong one begins a run or advances the ongoing one. */
  lemma StrongAdvances(s: Settings, q: seq<Measurement>, m: Measurement)
    requires s.Strong(m)
    ensures Ongoing(s, q + [m])
              == Some(if Ongoing(s, q).Some? then Advance(s, Ongoing(s, q).value, m) else Started(m))
    ensures Ended(s, q + [m], |q| + 1) == Ended(s, q, |q|)
  {
    hide EntityOf, Advance, Started;
    EndedIsStable(s, q, m, |q|);
    StartIsStable(s, q, m, |q|);
    var i := RunStart(s, q, |q|);
    assert RunStart(s, q + [m], |q| + 1) == i;
    if i < |q| {
      EntityAdvances(s, q, m, i);
    } else {
      EntityStarts(s, q, m);
    }
  }

  /** The faded migrations of one key, in order. */
  function FadedOf(faded: seq<Entity>, key: MigrationKey): seq<Entity> {
    if faded == [] then [] else
      var last := faded[|faded| - 1];
      FadedOf(faded[..|faded| - 1], key) + if last.key == key then [last] else []
  }

  ghost predicate Segments(s: Settings, t: Tracked, q: seq<Measurement>, key: MigrationKey) {
    && (if key in t.live then Ongoing(s, q) == Some(t.live[key]) else Ongoing(s, q) == None)
    && FadedOf(t.faded, key) == Ended(s, q, |q|)
  }

  lemma {:induction false} OfKey(ms: seq<Measurement>, key: MigrationKey)
    ensures forall m | m in Of(ms, key) :: m.Key() == key
  {
    if ms != [] {
      OfKey(ms[..|ms| - 1], key);
    }
  }

  lemma ObserveSegments(s: Settings, t: Tracked, m: Measurement, q: seq<Measurement>, key: MigrationKey)
    requires Segments(s, t, q, key) && (forall x | x in q :: x.Key() == key)
    requires m.Key() in t.live ==> t.live[m.Key()].key == m.Key()
    ensures Segments(s, Observe(s, t, m).0, if m.Key() == key then q + [m] else q, key)
  {
    hide Ongoing, Ended, Advance, Started;
    if m.Key() == key {
      if s.Strong(m) { StrongAdvances(s, q, m); } else { WeakEnds(s, q, m); }
    }
    var after := Observe(s, t, m).0;
    if after.faded != t.faded {
      assert after.faded[..|after.faded| - 1] == t.faded;
    }
  }

  /** For each key, the live migration is the run its measurements end in, and its faded ones are all its earlier
      maximal runs, in order, each with the batch definition's every field. */
  lemma {:induction false} TrackerSegments(s: Settings, ms: seq<Measurement>, key: MigrationKey)
    ensures Segments(s, Track(s, ms), Of(ms, key), key)
  {
    hide Segments, Observe, Ongoing;
    if ms == [] {
      EmptySegments(s, key);
    } else {
      var earlier, m := ms[..|ms| - 1], ms[|ms| - 1];
      TrackerSegments(s, earlier, key);
      TrackerSegments(s, earlier, m.Key());
      LiveKey(s, Track(s, earlier), Of(earlier, m.Key()), m.Key()) by { OfKey(earlier, m.Key()); }
      OfKey(earlier, key);
      ObserveSegments(s, Track(s, earlier), m, Of(earlier, key), key);
      assert Of(earlier, key) + [] == Of(earlier, key);
    }
  }

  lemma EmptySegments(s: Settings, key: MigrationKey)
    ensures Segments(s, NOTHING, [], key)
  {
  }

  lemma LiveKey(s: Settings, t: Tracked, q: seq<Measurement>, key: MigrationKey)
    requires Segments(s, t, q, key) && forall m | m in q :: m.Key() == key
    ensures key in t.live ==> t.live[key].key == key
  {
  }

  /** What that says of the entities: each maximal run is one migration, live if it is the last of its key and
      faded otherwise, and every migration is such a run. */
  lemma EntitiesAreTheRuns(s: Settings, ms: seq<Measurement>, key: MigrationKey)
    ensures var t, q := Track(s, ms), Of(ms, key);
            && (key in t.live <==> exists i: nat :: IsRun(s, q, i, |q|))
            && (forall i: nat :: IsRun(s, q, i, |q|) ==> key in t.live && t.live[key] == EntityOf(s, q, i, |q|))
            && (forall e :: e in FadedOf(t.faded, key) <==>
                  exists i: nat, j: nat | j < |q| :: IsRun(s, q, i, j) && e == EntityOf(s, q, i, j))
  {
    hide Track, Of, IsRun, Ongoing, Ended, EntityOf;
    var q := Of(ms, key);
    TrackerSegments(s, ms, key);
    EndedAreTheRuns(s, q, |q|);
    OngoingIsTheLastRun(s, q);
  }

  // ------------------------------------------- the entities, field by field

  /** A displacement either way of at least the threshold. */
  ghost predicate Reaches(m: Measurement, threshold: real) {
    m.magnitude >= threshold || -m.magnitude >= threshold
  }

  /** Of this expiry and side, and upward exactly when the destination is not below the origin. */
  ghost predicate FiledUnder(m: Measurement, key: MigrationKey) {
    m.expiry == key.expiry && m.side == key.side && (key.direction.Up? <==> m.destination >= m.origin)
  }

  ghost function FiledIn(ms: seq<Measurement>, key: MigrationKey): seq<Measurement> {
    if ms == [] then [] else
      var last := ms[|ms| - 1];
      FiledIn(ms[..|ms| - 1], key) + if FiledUnder(last, key) then [last] else []
  }

  /** `q[i..j]` is a maximal run of measurements that reach the threshold. */
  ghost predicate Maximal(q: seq<Measurement>, threshold: real, i: nat, j: nat) {
    && i < j <= |q|
    && (forall k | i <= k < j :: Reaches(q[k], threshold))
    && (i > 0 ==> !Reaches(q[i - 1], threshold))
    && (j < |q| ==> !Reaches(q[j], threshold))
  }

  /** The migration of the run `q[i..j]`, field by field. */
  ghost predicate Describes(e: Entity, key: MigrationKey, q: seq<Measurement>, confirmAfter: int, i: nat, j: nat)
    requires i < j <= |q|
  {
    && e.key == key && e.windows == j - i
    && e.origin == q[i].origin && e.firstAt == q[i].at
    && e.destination == q[j - 1].destination && e.magnitude == q[j - 1].magnitude
    && e.lastAt == (if j < |q| then q[j].at else q[j - 1].at)
    && (e.status.Faded? <==> j < |q|)
    && (e.status.Confirmed? <==> j == |q| && j - i >= 2 && j - i >= confirmAfter)
    && |e.evidence| == j - i + (if j < |q| then 1 else 0)
    && e.evidence[0] == Detected(q[i].origin, q[i].destination, q[i].magnitude)
    && (forall n | 1 <= n < j - i :: e.evidence[n] == Advanced(q[i + n].destination, n + 1))
    && (j < |q| ==> e.evidence[j - i] == FadedAt(q[j].at))
  }

  lemma StrongReaches(s: Settings, m: Measurement)
    ensures s.Strong(m) <==> Reaches(m, s.threshold)
  {
  }

  lemma KeyFiles(m: Measurement, key: MigrationKey)
    ensures m.Key() == key <==> FiledUnder(m, key)
  {
  }

  lemma {:induction false} OfIsFiledIn(ms: seq<Measurement>, key: MigrationKey)
    ensures Of(ms, key) == FiledIn(ms, key)
  {
    hide FiledUnder;
    if ms != [] {
      OfIsFiledIn(ms[..|ms| - 1], key);
      KeyFiles(ms[|ms| - 1], key);
    }
  }

  lemma RunIsMaximal(s: Settings, q: seq<Measurement>, i: nat, j: nat)
    ensures IsRun(s, q, i, j) <==> Maximal(q, s.threshold, i, j)
  {
    hide Settings.Strong, Reaches;
    forall m: Measurement ensures s.Strong(m) <==> Reaches(m, s.threshold) {
      StrongReaches(s, m);
    }
  }

  lemma {:induction false} StepsAre(q: seq<Measurement>, i: nat, j: nat)
    requires i < j <= |q|
    ensures |Steps(q, i, j)| == j - i
    ensures Steps(q, i, j)[0] == Detected(q[i].origin, q[i].destination, q[i].magnitude)
    ensures forall n | 1 <= n < j - i :: Steps(q, i, j)[n] == Advanced(q[i + n].destination, n + 1)
    decreases j
  {
    if j > i + 1 {
      StepsAre(q, i, j - 1);
      var before, last := Steps(q, i, j - 1), Advanced(q[j - 1].destination, j - i);
      assert Steps(q, i, j) == before + [last];
      hide Steps;
      forall n | 1 <= n < j - i ensures (before + [last])[n] == Advanced(q[i + n].destination, n + 1) {
        if n < j - i - 1 {
          assert (before + [last])[n] == before[n];
        }
      }
    }
  }

  lemma EntityDescribes(s: Settings, q: seq<Measurement>, key: MigrationKey, i: nat, j: nat)
    requires i < j <= |q| && q[i].Key() == key
    ensures Describes(EntityOf(s, q, i, j), key, q, s.confirmAfter, i, j)
  {
    hide Steps;
    StepsAre(q, i, j);
  }

  lemma {:induction false} FadedOfMembers(faded: seq<Entity>, key: MigrationKey, e: Entity)
    ensures e in FadedOf(faded, key) <==> e in faded && e.key == key
  {
    if faded != [] {
      FadedOfMembers(faded[..|faded| - 1], key, e);
      assert faded == faded[..|faded| - 1] + [faded[|faded| - 1]];
    }
  }

  lemma RunEntity(s: Settings, ms: seq<Measurement>, key: MigrationKey, i: nat, j: nat)
    ensures var q := FiledIn(ms, key);
            Maximal(q, s.threshold, i, j) ==> Describes(EntityOf(s, q, i, j), key, q, s.confirmAfter, i, j)
  {
    hide FiledIn, Of, Reaches, EntityOf, Describes, Measurement.Key;
    var q := FiledIn(ms, key);
    OfIsFiledIn(ms, key);
    OfKey(ms, key);
    if Maximal(q, s.threshold, i, j) {
      assert q[i] in q;
      EntityDescribes(s, q, key, i, j);
    }
  }

  /** Each maximal run of a key's measurements that reach the threshold either way is one migration, live if nothing follows
      it and faded otherwise, described field by field by the run; and every migration is described by such a run. */
  lemma MigrationsDescribeTheRuns(s: Settings, ms: seq<Measurement>, key: MigrationKey)
    ensures var t, q := Track(s, ms), FiledIn(ms, key);
            && (key in t.live <==> exists i: nat :: Maximal(q, s.threshold, i, |q|))
            && (forall i: nat | Maximal(q, s.threshold, i, |q|) ::
                  key in t.live && Describes(t.live[key], key, q, s.confirmAfter, i, |q|))
            && (forall e | e in t.faded && e.key == key ::
                  exists i: nat, j: nat ::
                    j < |q| && Maximal(q, s.threshold, i, j) && Describes(e, key, q, s.confirmAfter, i, j))
            && (forall i: nat, j: nat | j < |q| && Maximal(q, s.threshold, i, j) ::
                  exists e :: e in t.faded && Describes(e, key, q, s.confirmAfter, i, j))
  {
    hide Track, Of, FiledIn, IsRun, Maximal, Describes, EntityOf, FadedOf;
    var t, q := Track(s, ms), FiledIn(ms, key);
    EntitiesAreTheRuns(s, ms, key);
    OfIsFiledIn(ms, key);
    forall i: nat, j: nat
      ensures Maximal(q, s.threshold, i, j) <==> IsRun(s, q, i, j)
      ensures Maximal(q, s.threshold, i, j) ==> i < j <= |q| && Describes(EntityOf(s, q, i, j), key, q, s.confirmAfter, i, j)
    {
      RunEntity(s, ms, key, i, j);
      RunIsMaximal(s, q, i, j);
      MaximalWithin(q, s.threshold, i, j);
    }
    forall e ensures e in FadedOf(t.faded, key) <==> e in t.faded && e.key == key {
      FadedOfMembers(t.faded, key, e);
    }
    forall i: nat, j: nat | j < |q| && Maximal(q, s.threshold, i, j)
      ensures exists e :: e in t.faded && Describes(e, key, q, s.confirmAfter, i, j)
    {
      MaximalWithin(q, s.threshold, i, j);
      assert EntityOf(s, q, i, j) in FadedOf(t.faded, key);
    }
  }

  lemma MaximalWithin(q: seq<Measurement>, threshold: real, i: nat, j: nat)
    ensures Maximal(q, threshold, i, j) ==> i < j <= |q|
  {
  }

  /** What a measurement is said to have changed: the live migration it began or advanced, the one it ended, or none. */
  lemma ChangedExactly(s: Settings, ms: seq<Measurement>, m: Measurement)
    ensures var t, after, changed := Track(s, ms), Track(s, ms + [m]), Observe(s, Track(s, ms), m).1;
            && (Reaches(m, s.threshold) ==>
                  exists key :: FiledUnder(m, key) && key in after.live && changed == Some(after.live[key])
                                && after.faded == t.faded)
            && (!Reaches(m, s.threshold) && changed.None? ==>
                  after == t && forall key | FiledUnder(m, key) :: key !in t.live)
            && (!Reaches(m, s.threshold) && changed.Some? ==>
                  after.faded == t.faded + [changed.value] && changed.value.status.Faded?
                  && forall key | FiledUnder(m, key) :: key in t.live && after.live == t.live - {key})
  {
    hide Reaches, FiledUnder, Settings.Strong, Advance, Started, Measurement.Key;
    StrongReaches(s, m);
    forall key ensures m.Key() == key <==> FiledUnder(m, key) {
      KeyFiles(m, key);
    }
    assert FiledUnder(m, m.Key());
    assert (ms + [m])[..|ms|] == ms;
  }

  // --------------------------------------------------------------- conservation

  function StrongCount(s: Settings, ms: seq<Measurement>): nat {
    if ms == [] then 0 else StrongCount(s, ms[..|ms| - 1]) + if s.Strong(ms[|ms| - 1]) then 1 else 0
  }

  ghost function ReachCount(ms: seq<Measurement>, threshold: real): nat {
    if ms == [] then 0 else ReachCount(ms[..|ms| - 1], threshold) + if Reaches(ms[|ms| - 1], threshold) then 1 else 0
  }

  lemma {:induction false} StrongAreReached(s: Settings, ms: seq<Measurement>)
    ensures StrongCount(s, ms) == ReachCount(ms, s.threshold)
  {
    hide Settings.Strong, Reaches;
    if ms != [] {
      StrongAreReached(s, ms[..|ms| - 1]);
      StrongReaches(s, ms[|ms| - 1]);
    }
  }

  ghost function LiveWindows(live: map<MigrationKey, Entity>): real {
    SumSet(live.Keys, k => if k in live then live[k].windows as real else 0.0)
  }

  ghost function FadedWindows(faded: seq<Entity>): real {
    SumSeq(faded, (e: Entity) => e.windows as real)
  }

  lemma LiveUpdate(live: map<MigrationKey, Entity>, key: MigrationKey, e: Entity)
    ensures LiveWindows(live[key := e]) == LiveWindows(live - {key}) + e.windows as real
  {
    var after, rest := live[key := e], live - {key};
    var f := k => if k in after then after[k].windows as real else 0.0;
    var g := k => if k in rest then rest[k].windows as real else 0.0;
    SumRemove(after.Keys, key, f);
    assert after.Keys - {key} == rest.Keys;
    SumCongruent(rest.Keys, f, g);
  }

  lemma LiveWithout(live: map<MigrationKey, Entity>, key: MigrationKey)
    ensures LiveWindows(live) == LiveWindows(live - {key}) + if key in live then live[key].windows as real else 0.0
  {
    if key in live {
      LiveUpdate(live, key, live[key]);
      assert live[key := live[key]] == live;
    } else {
      assert live - {key} == live;
    }
  }

  lemma FadedOne(faded: seq<Entity>, e: Entity)
    ensures FadedWindows(faded + [e]) == FadedWindows(faded) + e.windows as real
  {
  }

  /** No measurement is counted twice and none is lost: the windows of all migrations, live and faded, are the
      measurements that reach the threshold either way. */
  lemma WindowsAreConserved(s: Settings, ms: seq<Measurement>)
    ensures LiveWindows(Track(s, ms).live) + FadedWindows(Track(s, ms).faded) == ReachCount(ms, s.threshold) as real
  {
    hide LiveWindows, FadedWindows, Track, StrongCount, ReachCount;
    WindowsAreStrong(s, ms);
    StrongAreReached(s, ms);
  }

  lemma {:induction false} WindowsAreStrong(s: Settings, ms: seq<Measurement>)
    ensures LiveWindows(Track(s, ms).live) + FadedWindows(Track(s, ms).faded) == StrongCount(s, ms) as real
  {
    hide LiveWindows, FadedWindows;
    if ms == [] {
      NoWindows();
    } else {
      var earlier, m := ms[..|ms| - 1], ms[|ms| - 1];
      WindowsAreStrong(s, earlier);
      var t := Track(s, earlier);
      var key := m.Key();
      LiveWithout(t.live, key);
      if s.Strong(m) {
        LiveUpdate(t.live, key, if key in t.live then Advance(s, t.live[key], m) else Started(m));
      } else if key in t.live {
        FadedOne(t.faded, Fade(t.live[key], m));
      }
    }
  }

  lemma NoWindows()
    ensures LiveWindows(map[]) == 0.0 && FadedWindows([]) == 0.0
  {
  }

  // ----------------------------------------------------------------- the tracker

  class MigrationTracker {
    const settings: Settings
    var live: map<MigrationKey, Entity>
    var faded: seq<Entity>

    function Contents(): Tracked
      reads this
    {
      Tracked(live, faded)
    }

    constructor (threshold: real, confirmAfter: int)
      ensures settings == Settings(threshold, confirmAfter) && Contents() == NOTHING
    {
      settings := Settings(threshold, confirmAfter);
      live, faded := map[], [];
    }

    /** Apply one window's measurement; the migration it changed, if any. */
    method ObserveOne(m: Measurement) returns (changed: Option<Entity>)
      modifies this
      ensures (Contents(), changed) == Observe(settings, old(Contents()), m)
    {
      var key := m.Key();
      if !settings.Strong(m) {
        if key !in live {
          return None;
        }
        var gone := live[key].(status := Faded, lastAt := m.at, evidence := live[key].evidence + [FadedAt(m.at)]);
        faded := faded + [gone];
        live := live - {key};
        return Some(gone);
      }
      if key !in live {
        var started := Started(m);
        live := live[key := started];
        return Some(started);
      }
      var windows := live[key].windows + 1;
      var advanced := live[key].(
        destination := m.destination,
        magnitude := m.magnitude,
        status := if windows >= settings.confirmAfter then Confirmed else live[key].status,
        lastAt := m.at,
        windows := windows,
        evidence := live[key].evidence + [Advanced(m.destination, windows)]);
      live := live[key := advanced];
      return Some(advanced);
    }
  }
}
