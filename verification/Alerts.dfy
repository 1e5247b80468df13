// The alert router: one alert per dedup key, a cooldown between alerts about one
// signal, and an index a restarted process can rebuild.

module Alerts {
  import opened Wrappers

  datatype SignalStatus = Forming | Active | Confirmed | Invalidated | Expired | Faded

  /** A lifecycle stream: what successive evaluations of one developing signal share. */
  datatype Stream = Stream(signalType: int, ruleVersion: int, underlying: int, expiry: Option<int>, occurrence: int)

  /** A signal's identity is content-addressed: its stream, the times it was evaluated at, and its context. */
  datatype SignalId = SignalId(stream: Stream, marketTime: int, horizon: int, context: int, config: int)

  datatype Signal = Signal(id: SignalId, status: SignalStatus, strength: real, availableAt: int)

  datatype Channel = Sse | Webhook

  datatype Severity = Info | Notice | Important

  /** The settings a rule's digest covers; a digest is modelled as what it covers. */
  datatype Config = Config(
    signalType: int,
    channel: Channel,
    severity: Severity,
    onStatuses: set<SignalStatus>,
    minStrength: real,
    cooldown: int,
    dedupWindow: int,
    underlying: Option<int>)

  datatype Rule = Rule(id: int, config: Config, enabled: bool) {
    predicate Matches(s: Signal) {
      && enabled
      && s.id.stream.signalType == config.signalType
      && (config.underlying.Some? ==> s.id.stream.underlying == config.underlying.value)
      && s.status in config.onStatuses
      && s.strength >= config.minStrength
    }
  }

  /** A dedup key, modelled as the values it hashes. Market time is not among them. */
  datatype Key = Key(rule: int, config: Config, stream: Stream, status: SignalStatus, windowStart: int)

  datatype AlertStatus = Pending | Suppressed

  datatype Occurrence = Occurrence(
    rule: int,
    config: Config,
    signal: SignalId,
    status: AlertStatus,
    availableAt: int,
    triggeredAt: int,
    key: Key)

  /** Floor a time into its bucket, counted from a fixed epoch. */
  function WindowStart(at: int, window: int, epoch: int): int {
    if window <= 0 then at else epoch + (at - epoch) / window * window
  }

  function KeyFor(rule: Rule, s: Signal, windowStart: int): Key {
    Key(rule.id, rule.config, s.id.stream, s.status, windowStart)
  }

  /** What has been emitted, by key, and the last time for each rule and signal. */
  datatype Index = Index(byKey: map<Key, Occurrence>, last: map<(int, SignalId), int>)

  const EMPTY := Index(map[], map[])

  datatype Decision =
    | NoMatch
    | Duplicate(existing: Occurrence)
    | Cooling(occurrence: Occurrence)
    | Emitted(occurrence: Occurrence)

  datatype Input = Input(rule: Rule, signal: Signal, now: int)

  function KeyOf(epoch: int, x: Input): Key {
    KeyFor(x.rule, x.signal, WindowStart(x.now, x.rule.config.dedupWindow, epoch))
  }

  function Made(epoch: int, x: Input, status: AlertStatus): Occurrence {
    Occurrence(x.rule.id, x.rule.config, x.signal.id, status, x.signal.availableAt, x.now, KeyOf(epoch, x))
  }

  function Route(ix: Index, epoch: int, x: Input): (Index, Decision) {
    var key, pair := KeyOf(epoch, x), (x.rule.id, x.signal.id);
    if !x.rule.Matches(x.signal) then (ix, NoMatch)
    else if key in ix.byKey then (ix, Duplicate(ix.byKey[key]))
    else if pair in ix.last && x.now - ix.last[pair] < x.rule.config.cooldown then
      (ix, Cooling(Made(epoch, x, Suppressed)))
    else
      var o := Made(epoch, x, Pending);
      (Index(ix.byKey[key := o], ix.last[pair := x.now]), Emitted(o))
  }

  /** Re-enter occurrences, in the order given. */
  function Restore(ix: Index, occurrences: seq<Occurrence>): Index {
    if occurrences == [] then ix else
      var o := occurrences[|occurrences| - 1];
      var before := Restore(ix, occurrences[..|occurrences| - 1]);
      var pair := (o.rule, o.signal);
      Index(before.byKey[o.key := o],
            if pair !in before.last || o.triggeredAt > before.last[pair] then before.last[pair := o.triggeredAt]
            else before.last)
  }

  // --------------------------------------------------------------------- a run

  /** The index after a run, with every occurrence emitted, in order. */
  datatype Run = Run(index: Index, log: seq<Occurrence>)

  function Extend(r: Run, epoch: int, x: Input): Run {
    var (ix, d) := Route(r.index, epoch, x);
    Run(ix, if d.Emitted? then r.log + [d.occurrence] else r.log)
  }

  function RunFrom(r: Run, epoch: int, inputs: seq<Input>): Run {
    if inputs == [] then r
    else Extend(RunFrom(r, epoch, inputs[..|inputs| - 1]), epoch, inputs[|inputs| - 1])
  }

  const START := Run(EMPTY, [])

  /** Time does not go back, or no cooldown is negative: either keeps a signal's alerts in order of time. */
  ghost predicate Steady(inputs: seq<Input>) {
    || (forall i, j | 0 <= i <= j < |inputs| :: inputs[i].now <= inputs[j].now)
    || (forall x | x in inputs :: x.rule.config.cooldown >= 0)
  }

  ghost predicate SamePair(a: Occurrence, b: Occurrence) {
    a.rule == b.rule && a.signal == b.signal
  }

  /** The index holds the log and nothing else, under distinct keys. */
  ghost predicate KeysOk(r: Run) {
    && (forall i, j | 0 <= i < j < |r.log| :: r.log[i].key != r.log[j].key)
    && (forall k | k in r.index.byKey :: r.index.byKey[k] in r.log && r.index.byKey[k].key == k)
    && (forall o | o in r.log :: o.key in r.index.byKey && r.index.byKey[o.key] == o)
  }

  /** Each signal's last time is that of its latest alert. */
  ghost predicate LastOk(r: Run) {
    && (forall p | p in r.index.last :: exists o | o in r.log :: (o.rule, o.signal) == p && o.triggeredAt == r.index.last[p])
    && (forall o | o in r.log :: (o.rule, o.signal) in r.index.last && o.triggeredAt <= r.index.last[(o.rule, o.signal)])
  }

  /** Alerts about one signal are a cooldown apart, by the rule as it stood at the later one, and in order. */
  ghost predicate Spaced(log: seq<Occurrence>) {
    forall i, j | 0 <= i < j < |log| && SamePair(log[i], log[j]) ::
      log[j].triggeredAt - log[i].triggeredAt >= log[j].config.cooldown && log[j].triggeredAt >= log[i].triggeredAt
  }

  /** Each occurrence is of its rule's key, in the bucket of its time, and no later than `now`. */
  ghost predicate StampsOk(log: seq<Occurrence>, epoch: int) {
    forall o | o in log ::
      && o.key.rule == o.rule && o.key.config == o.config && o.key.stream == o.signal.stream
      && o.status.Pending?
      && o.key.windowStart == WindowStart(o.triggeredAt, o.config.dedupWindow, epoch)
  }

  lemma KeysWithOne(r: Run, o: Occurrence, last: map<(int, SignalId), int>)
    requires KeysOk(r) && o.key !in r.index.byKey
    ensures KeysOk(Run(Index(r.index.byKey[o.key := o], last), r.log + [o]))
  {
    var after := Run(Index(r.index.byKey[o.key := o], last), r.log + [o]);
    assert after.log[|r.log|] == o;
    assert forall q :: q in after.log <==> q in r.log || q == o;
    forall i | 0 <= i < |r.log| ensures r.log[i].key != o.key {
      assert r.log[i] in r.log;
    }
  }

  lemma ExtendKeys(r: Run, epoch: int, x: Input)
    requires KeysOk(r)
    ensures KeysOk(Extend(r, epoch, x))
  {
    hide KeyOf, KeysOk;
    var (ix, d) := Route(r.index, epoch, x);
    if d.Emitted? {
      KeysWithOne(r, d.occurrence, ix.last);
    }
  }

  lemma ExtendLast(r: Run, epoch: int, x: Input)
    requires LastOk(r)
    requires var p := (x.rule.id, x.signal.id); p in r.index.last ==> x.rule.config.cooldown >= 0 || r.index.last[p] <= x.now
    ensures LastOk(Extend(r, epoch, x))
  {
    hide KeyOf;
    var (_, d) := Route(r.index, epoch, x);
    if d.Emitted? {
      var after, o := Extend(r, epoch, x), d.occurrence;
      assert after.log[|r.log|] == o && o in after.log;
      forall p | p in after.index.last
        ensures exists q | q in after.log :: (q.rule, q.signal) == p && q.triggeredAt == after.index.last[p]
      {
        if p != (o.rule, o.signal) {
          var q :| q in r.log && (q.rule, q.signal) == p && q.triggeredAt == r.index.last[p];
          assert q in after.log;
        }
      }
    }
  }

  lemma ExtendSpaced(r: Run, epoch: int, x: Input)
    requires LastOk(r) && Spaced(r.log)
    requires var p := (x.rule.id, x.signal.id); p in r.index.last ==> x.rule.config.cooldown >= 0 || r.index.last[p] <= x.now
    ensures Spaced(Extend(r, epoch, x).log)
  {
    hide KeyOf;
    var (_, d) := Route(r.index, epoch, x);
    if d.Emitted? {
      forall i | 0 <= i < |r.log| && SamePair(r.log[i], d.occurrence)
        ensures x.now - r.log[i].triggeredAt >= x.rule.config.cooldown && x.now >= r.log[i].triggeredAt
      {
        assert r.log[i] in r.log;
      }
    }
  }

  ghost predicate RunOk(r: Run, epoch: int) {
    KeysOk(r) && LastOk(r) && Spaced(r.log) && StampsOk(r.log, epoch)
  }

  lemma {:induction false} NoneLater(epoch: int, inputs: seq<Input>, now: int)
    requires forall x | x in inputs :: x.now <= now
    ensures forall o | o in RunFrom(START, epoch, inputs).log :: o.triggeredAt <= now
  {
    hide KeyOf;
    if inputs != [] {
      NoneLater(epoch, inputs[..|inputs| - 1], now);
    }
  }

  lemma {:induction false} EveryRunOk(epoch: int, inputs: seq<Input>)
    requires Steady(inputs)
    ensures RunOk(RunFrom(START, epoch, inputs), epoch)
  {
    hide KeysOk, LastOk, Spaced, Route;
    if inputs == [] {
      StartOk();
    } else {
      var earlier, x := inputs[..|inputs| - 1], inputs[|inputs| - 1];
      assert forall y | y in earlier :: y in inputs;
      EveryRunOk(epoch, earlier);
      var r := RunFrom(START, epoch, earlier);
      NotBack(epoch, inputs);
      ExtendKeys(r, epoch, x);
      ExtendLast(r, epoch, x);
      ExtendSpaced(r, epoch, x);
      ExtendStamps(r, epoch, x);
    }
  }

  lemma StartOk()
    ensures KeysOk(START) && LastOk(START) && Spaced(START.log)
  {
  }

  lemma ExtendStamps(r: Run, epoch: int, x: Input)
    ensures StampsOk(r.log, epoch) ==> StampsOk(Extend(r, epoch, x).log, epoch)
  {
  }

  lemma NotBack(epoch: int, inputs: seq<Input>)
    requires inputs != [] && Steady(inputs) && LastOk(RunFrom(START, epoch, inputs[..|inputs| - 1]))
    ensures var x, r := inputs[|inputs| - 1], RunFrom(START, epoch, inputs[..|inputs| - 1]);
            var p := (x.rule.id, x.signal.id);
            p in r.index.last ==> x.rule.config.cooldown >= 0 || r.index.last[p] <= x.now
  {
    hide RunFrom;
    var earlier, x := inputs[..|inputs| - 1], inputs[|inputs| - 1];
    assert x in inputs;
    if x.rule.config.cooldown < 0 {
      assert forall y | y in earlier :: y.now <= x.now;
      NoneLater(epoch, earlier, x.now);
    }
  }

  // -------------------------------------------------- decisions in plain terms

  /** `t` falls in window `n`, counted from the epoch. */
  ghost predicate InWindow(epoch: int, window: int, n: int, t: int) {
    epoch + n * window <= t < epoch + (n + 1) * window
  }

  /** Two times share a window; a window that is not positive is the instant itself. */
  ghost predicate ShareWindow(epoch: int, window: int, t: int, u: int) {
    if window > 0 then exists n :: InWindow(epoch, window, n, t) && InWindow(epoch, window, n, u) else t == u
  }

  lemma DivUnique(n: int, d: int, q: int)
    requires d > 0 && d * q <= n < d * (q + 1)
    ensures n / d == q
  {
    var k := n / d - q;
    assert d * (n / d) == d * q + d * k by { assert n / d == q + k; }
    assert k >= 1 ==> d * k >= d;
    assert k <= -1 ==> d * k <= -d;
  }

  lemma WindowStartsAt(epoch: int, window: int, n: int, t: int)
    requires window > 0 && InWindow(epoch, window, n, t)
    ensures WindowStart(t, window, epoch) == epoch + n * window
  {
    assert n * window == window * n && (n + 1) * window == window * (n + 1);
    DivUnique(t - epoch, window, n);
  }

  lemma WindowHolds(epoch: int, window: int, t: int)
    requires window > 0
    ensures InWindow(epoch, window, (t - epoch) / window, t)
  {
    var e := t - epoch;
    assert e == window * (e / window) + e % window;
    assert e / window * window == window * (e / window);
    assert (e / window + 1) * window == window * (e / window) + window;
  }

  lemma SameProduct(m: int, n: int, window: int)
    requires window > 0 && m * window == n * window
    ensures m == n
  {
    assert (m - n) * window == 0;
    assert m - n >= 1 ==> (m - n) * window >= window;
    assert m - n <= -1 ==> (m - n) * window <= -window;
  }

  /** Bucketing by the window's start is sharing a window. */
  lemma SameStartIsShared(epoch: int, window: int, t: int, u: int)
    ensures WindowStart(t, window, epoch) == WindowStart(u, window, epoch) <==> ShareWindow(epoch, window, t, u)
  {
    hide WindowStart, InWindow;
    if window > 0 {
      var m, n := (t - epoch) / window, (u - epoch) / window;
      WindowHolds(epoch, window, t);
      WindowHolds(epoch, window, u);
      WindowStartsAt(epoch, window, m, t);
      WindowStartsAt(epoch, window, n, u);
      if WindowStart(t, window, epoch) == WindowStart(u, window, epoch) {
        SameProduct(m, n, window);
      }
      if k :| InWindow(epoch, window, k, t) && InWindow(epoch, window, k, u) {
        WindowStartsAt(epoch, window, k, t);
        WindowStartsAt(epoch, window, k, u);
      }
    } else {
      StartIsItself(epoch, window, t);
      StartIsItself(epoch, window, u);
    }
  }

  lemma StartIsItself(epoch: int, window: int, t: int)
    ensures window <= 0 ==> WindowStart(t, window, epoch) == t
  {
  }

  lemma {:induction false} EveryRunKeyed(epoch: int, inputs: seq<Input>)
    ensures KeysOk(RunFrom(START, epoch, inputs)) && StampsOk(RunFrom(START, epoch, inputs).log, epoch)
  {
    hide KeysOk, Route, LastOk;
    if inputs == [] {
      StartOk();
    } else {
      EveryRunKeyed(epoch, inputs[..|inputs| - 1]);
      ExtendKeys(RunFrom(START, epoch, inputs[..|inputs| - 1]), epoch, inputs[|inputs| - 1]);
      ExtendStamps(RunFrom(START, epoch, inputs[..|inputs| - 1]), epoch, inputs[|inputs| - 1]);
    }
  }

  /** Over any run, at most one alert of a rule, its settings, a stream and a status is stamped in any one window, or, where
      the window is not positive, at any one instant. */
  lemma OneAlertPerWindow(epoch: int, inputs: seq<Input>, i: nat, j: nat, n: int)
    requires i < j < |RunFrom(START, epoch, inputs).log|
    ensures var log := RunFrom(START, epoch, inputs).log;
            var a, b, window := log[i], log[j], log[i].config.dedupWindow;
            a.rule == b.rule && a.config == b.config && a.signal.stream == b.signal.stream && a.key.status == b.key.status ==>
              if window > 0
              then !(epoch + n * window <= a.triggeredAt < epoch + (n + 1) * window
                     && epoch + n * window <= b.triggeredAt < epoch + (n + 1) * window)
              else a.triggeredAt != b.triggeredAt
  {
    hide RunFrom, WindowStart, InWindow;
    EveryRunKeyed(epoch, inputs);
    var log := RunFrom(START, epoch, inputs).log;
    assert log[i] in log && log[j] in log;
    SameStartIsShared(epoch, log[i].config.dedupWindow, log[i].triggeredAt, log[j].triggeredAt);
    WindowIs(epoch, log[i].config.dedupWindow, n, log[i].triggeredAt);
    WindowIs(epoch, log[i].config.dedupWindow, n, log[j].triggeredAt);
  }

  lemma WindowIs(epoch: int, window: int, n: int, t: int)
    ensures InWindow(epoch, window, n, t) <==> epoch + n * window <= t < epoch + (n + 1) * window
  {
  }

  /** An alert of the rule, with its settings, about the stream and the status of the input's signal. */
  ghost predicate Concerns(o: Occurrence, x: Input) {
    && o.rule == x.rule.id && o.config == x.rule.config
    && o.signal.stream == x.signal.id.stream && o.key.status == x.signal.status
  }

  /** The last alert of the rule about the very signal. */
  ghost predicate LastAbout(log: seq<Occurrence>, x: Input, i: nat) {
    && i < |log| && log[i].rule == x.rule.id && log[i].signal == x.signal.id
    && forall j | i < j < |log| :: !(log[j].rule == x.rule.id && log[j].signal == x.signal.id)
  }

  /** The rule is enabled and asks for no other type, underlying or status, and for no more strength. */
  ghost predicate Wants(rule: Rule, s: Signal) {
    && rule.enabled
    && s.id.stream.signalType == rule.config.signalType
    && (rule.config.underlying.None? || rule.config.underlying == Some(s.id.stream.underlying))
    && s.status in rule.config.onStatuses && s.strength >= rule.config.minStrength
  }

  /** An alert that says the same is stamped in the window that holds the input's time. */
  ghost predicate Repeats(epoch: int, o: Occurrence, x: Input) {
    Concerns(o, x) && ShareWindow(epoch, x.rule.config.dedupWindow, o.triggeredAt, x.now)
  }

  /** The last alert of the rule about the very signal is less than a cooldown old. */
  ghost predicate Recent(log: seq<Occurrence>, x: Input) {
    exists i: nat :: LastAbout(log, x, i) && x.now - log[i].triggeredAt < x.rule.config.cooldown
  }

  /** What each rule and signal last alerted at. */
  ghost predicate LastRecorded(r: Run) {
    forall x: Input ::
      if (x.rule.id, x.signal.id) in r.index.last
      then exists i: nat :: LastAbout(r.log, x, i) && r.log[i].triggeredAt == r.index.last[(x.rule.id, x.signal.id)]
      else forall i: nat :: !LastAbout(r.log, x, i) && (i < |r.log| ==> (r.log[i].rule, r.log[i].signal) != (x.rule.id, x.signal.id))
  }

  lemma ExtendRecorded(r: Run, epoch: int, x: Input)
    requires LastRecorded(r)
    ensures LastRecorded(Extend(r, epoch, x))
  {
    hide KeyOf, Rule.Matches;
    var after, d := Extend(r, epoch, x), Route(r.index, epoch, x).1;
    if d.Emitted? {
      forall y: Input
        ensures if (y.rule.id, y.signal.id) in after.index.last
                then exists i: nat :: LastAbout(after.log, y, i)
                                      && after.log[i].triggeredAt == after.index.last[(y.rule.id, y.signal.id)]
                else forall i: nat :: !LastAbout(after.log, y, i)
                       && (i < |after.log| ==> (after.log[i].rule, after.log[i].signal) != (y.rule.id, y.signal.id))
      {
        if (y.rule.id, y.signal.id) == (x.rule.id, x.signal.id) {
          assert LastAbout(after.log, y, |r.log|);
        } else if (y.rule.id, y.signal.id) in r.index.last {
          var i: nat :| LastAbout(r.log, y, i) && r.log[i].triggeredAt == r.index.last[(y.rule.id, y.signal.id)];
          assert LastAbout(after.log, y, i);
        }
      }
    }
  }

  lemma {:induction false} EveryRunRecorded(epoch: int, inputs: seq<Input>)
    ensures LastRecorded(RunFrom(START, epoch, inputs))
  {
    hide Extend, LastRecorded;
    if inputs == [] {
      StartRecorded();
    } else {
      EveryRunRecorded(epoch, inputs[..|inputs| - 1]);
      ExtendRecorded(RunFrom(START, epoch, inputs[..|inputs| - 1]), epoch, inputs[|inputs| - 1]);
    }
  }

  lemma StartRecorded()
    ensures LastRecorded(START)
  {
  }

  lemma KeyTaken(epoch: int, inputs: seq<Input>, x: Input)
    ensures var r := RunFrom(START, epoch, inputs);
            && (KeyOf(epoch, x) in r.index.byKey <==>
                  exists o | o in r.log :: Repeats(epoch, o, x))
            && (KeyOf(epoch, x) in r.index.byKey ==>
                  r.index.byKey[KeyOf(epoch, x)] in r.log && Repeats(epoch, r.index.byKey[KeyOf(epoch, x)], x))
  {
    hide RunFrom, WindowStart, ShareWindow;
    EveryRunKeyed(epoch, inputs);
    var r := RunFrom(START, epoch, inputs);
    forall o | o in r.log
      ensures o.key == KeyOf(epoch, x) <==> Repeats(epoch, o, x)
    {
      SameStartIsShared(epoch, o.config.dedupWindow, o.triggeredAt, x.now);
    }
  }

  /** Every decision of every run, from the input's own fields and the alerts before it. It is no match exactly when the
      rule is disabled or asks for another type, underlying or status, or for more strength; a duplicate exactly when it
      matches and such an alert is already stamped in the window that holds its time; cooling exactly when it is neither and
      the last alert of the rule about the signal was less than a cooldown ago; else it goes out, stamped with its time. */
  lemma DecisionExactly(epoch: int, inputs: seq<Input>, x: Input)
    ensures var r, d := RunFrom(START, epoch, inputs), Route(RunFrom(START, epoch, inputs).index, epoch, x).1;
            var repeated, recent := exists o | o in r.log :: Repeats(epoch, o, x), Recent(r.log, x);
            && (d.NoMatch? <==> !Wants(x.rule, x.signal))
            && (d.Duplicate? <==> Wants(x.rule, x.signal) && repeated)
            && (d.Cooling? <==> Wants(x.rule, x.signal) && !repeated && recent)
            && (d.Emitted? <==> Wants(x.rule, x.signal) && !repeated && !recent)
            && (d.Duplicate? ==> d.existing in r.log && Repeats(epoch, d.existing, x))
            && (d.Cooling? || d.Emitted? ==> Reports(d.occurrence, x) && (d.occurrence.status.Pending? <==> d.Emitted?))
            && RunFrom(START, epoch, inputs + [x]).log == r.log + if d.Emitted? then [d.occurrence] else []
  {
    hide KeyOf, WindowStart, ShareWindow, LastAbout, LastRecorded;
    EveryRunRecorded(epoch, inputs);
    KeyTaken(epoch, inputs, x);
    RecordedAt(RunFrom(START, epoch, inputs), x);
    assert (inputs + [x])[..|inputs|] == inputs;
    MadeReports(epoch, x);
  }

  /** What an occurrence says of its input. */
  ghost predicate Reports(o: Occurrence, x: Input) {
    && Concerns(o, x) && o.signal == x.signal.id && o.availableAt == x.signal.availableAt && o.triggeredAt == x.now
  }

  lemma MadeReports(epoch: int, x: Input)
    ensures forall status: AlertStatus :: Reports(Made(epoch, x, status), x)
  {
  }

  lemma RecordedAt(r: Run, x: Input)
    requires LastRecorded(r)
    ensures var pair := (x.rule.id, x.signal.id);
            if pair in r.index.last
            then forall i: nat | LastAbout(r.log, x, i) :: r.log[i].triggeredAt == r.index.last[pair]
            else forall i: nat :: !LastAbout(r.log, x, i)
    ensures (x.rule.id, x.signal.id) in r.index.last ==> exists i: nat :: LastAbout(r.log, x, i)
  {
  }

  /** Over any run, no two alerts share a key: alerts of one rule, settings, stream and status fall in different
      dedup windows. And two about the same signal are at least the later one's cooldown apart. */
  lemma AlertsAreDistinctAndSpaced(epoch: int, inputs: seq<Input>, i: nat, j: nat)
    requires Steady(inputs)
    requires i < j < |RunFrom(START, epoch, inputs).log|
    ensures var log := RunFrom(START, epoch, inputs).log;
            && log[i].key != log[j].key
            && (log[i].rule == log[j].rule && log[i].config == log[j].config
                  && log[i].signal.stream == log[j].signal.stream && log[i].key.status == log[j].key.status ==>
                  WindowStart(log[i].triggeredAt, log[i].config.dedupWindow, epoch)
                    != WindowStart(log[j].triggeredAt, log[i].config.dedupWindow, epoch))
            && (SamePair(log[i], log[j]) ==> log[j].triggeredAt - log[i].triggeredAt >= log[j].config.cooldown)
  {
    hide WindowStart, RunFrom;
    EveryRunOk(epoch, inputs);
    var log := RunFrom(START, epoch, inputs).log;
    assert log[i] in log && log[j] in log;
  }

  // -------------------------------------------------------- the cooldown's reach

  /** The cooldown is meant for a stream but keyed by the signal's identity, which includes its market time. After an
      alert about a stream, another about it within the cooldown is held back exactly when one within the cooldown
      was about the very same evaluation; an alert about another evaluation of the stream goes out. */
  lemma CooldownKnowsOnlyTheSignal(epoch: int, inputs: seq<Input>, x: Input)
    requires Steady(inputs) && x.rule.Matches(x.signal)
    requires var r := RunFrom(START, epoch, inputs);
             && KeyOf(epoch, x) !in r.index.byKey
             && exists o | o in r.log :: o.rule == x.rule.id && o.signal.stream == x.signal.id.stream
                                       && x.now - o.triggeredAt < x.rule.config.cooldown
    ensures var r := RunFrom(START, epoch, inputs);
            && (Route(r.index, epoch, x).1.Cooling? <==>
                  exists o | o in r.log :: o.rule == x.rule.id && o.signal == x.signal.id
                                         && x.now - o.triggeredAt < x.rule.config.cooldown)
            && (Route(r.index, epoch, x).1.Emitted? <==> !Route(r.index, epoch, x).1.Cooling?)
  {
    hide RunFrom, KeyOf, Spaced, KeysOk;
    EveryRunOk(epoch, inputs);
  }

  /** So one stream, evaluated at two market times a second apart, can alert twice within any cooldown. */
  lemma StreamAlertsTwiceWithinCooldown(epoch: int, rule: Rule, s: Signal, later: int, now: int)
    requires rule.Matches(s) && later != s.id.marketTime && rule.config.dedupWindow > 0
    requires (now - epoch) % rule.config.dedupWindow == rule.config.dedupWindow - 1
    ensures var again := s.(id := s.id.(marketTime := later));
            var log := RunFrom(START, epoch, [Input(rule, s, now), Input(rule, again, now + 1)]).log;
            && |log| == 2 && log[0].signal.stream == log[1].signal.stream
            && log[1].triggeredAt - log[0].triggeredAt == 1
  {
    var window := rule.config.dedupWindow;
    var again := s.(id := s.id.(marketTime := later));
    var x, y := Input(rule, s, now), Input(rule, again, now + 1);
    NextBucket(now - epoch, window);
    assert KeyOf(epoch, x).windowStart != KeyOf(epoch, y).windowStart;
    RunOfTwo(START, epoch, x, y);
  }

  lemma RunOfTwo(r: Run, epoch: int, x: Input, y: Input)
    ensures RunFrom(r, epoch, [x, y]) == Extend(Extend(r, epoch, x), epoch, y)
  {
    hide Extend;
    assert [x, y][..1] == [x] && [x][..0] == [];
    assert RunFrom(r, epoch, [x]) == Extend(RunFrom(r, epoch, []), epoch, x);
  }

  lemma NextBucket(elapsed: int, window: int)
    requires window > 0 && elapsed % window == window - 1
    ensures elapsed / window * window != (elapsed + 1) / window * window
  {
    var q := elapsed / window;
    assert elapsed == window * q + (window - 1);
    assert elapsed + 1 == window * (q + 1);
    var p := (elapsed + 1) / window;
    assert window * p + (elapsed + 1) % window == window * (q + 1);
    assert p == q ==> window * p == window * q;
  }

  // ---------------------------------------------------------------- crash, restore

  /** `m` is the latest of the occurrences about each signal. */
  ghost predicate LatestOf(m: map<(int, SignalId), int>, occurrences: seq<Occurrence>) {
    && (forall p | p in m :: exists o | o in occurrences :: (o.rule, o.signal) == p && o.triggeredAt == m[p])
    && (forall o | o in occurrences :: (o.rule, o.signal) in m && o.triggeredAt <= m[(o.rule, o.signal)])
  }

  lemma {:induction false} RestoreKeys(occurrences: seq<Occurrence>)
    requires forall o, p | o in occurrences && p in occurrences && o.key == p.key :: o == p
    ensures var byKey := Restore(EMPTY, occurrences).byKey;
            && (forall k | k in byKey :: byKey[k] in occurrences && byKey[k].key == k)
            && (forall o | o in occurrences :: o.key in byKey && byKey[o.key] == o)
  {
    if occurrences != [] {
      var earlier, o := occurrences[..|occurrences| - 1], occurrences[|occurrences| - 1];
      assert occurrences == earlier + [o];
      RestoreKeys(earlier);
      var byKey := Restore(EMPTY, occurrences).byKey;
      assert byKey == Restore(EMPTY, earlier).byKey[o.key := o];
      assert o in occurrences && forall p | p in earlier :: p in occurrences;
    }
  }

  lemma {:induction false} RestoreTimes(occurrences: seq<Occurrence>)
    ensures LatestOf(Restore(EMPTY, occurrences).last, occurrences)
  {
    if occurrences != [] {
      var earlier, o := occurrences[..|occurrences| - 1], occurrences[|occurrences| - 1];
      assert occurrences == earlier + [o];
      RestoreTimes(earlier);
      hide LatestOf;
    }
  }

  lemma LatestIsUnique(m: map<(int, SignalId), int>, n: map<(int, SignalId), int>, a: seq<Occurrence>, b: seq<Occurrence>)
    ensures (LatestOf(m, a) && LatestOf(n, b) && forall o :: o in a <==> o in b) ==> m == n
  {
  }

  /** A fresh router given what was emitted, in any order and however often, has the index of the one that did
      not crash. */
  lemma RestoreIsTheIndex(epoch: int, inputs: seq<Input>, stored: seq<Occurrence>)
    requires Steady(inputs)
    requires forall o :: o in stored <==> o in RunFrom(START, epoch, inputs).log
    ensures Restore(EMPTY, stored) == RunFrom(START, epoch, inputs).index
  {
    hide RunFrom, Spaced, LatestOf, Restore;
    EveryRunOk(epoch, inputs);
    var r := RunFrom(START, epoch, inputs);
    assert LatestOf(r.index.last, r.log) by { LastIsLatest(r); }
    RestoreKeys(stored);
    RestoreTimes(stored);
    LatestIsUnique(Restore(EMPTY, stored).last, r.index.last, stored, r.log);
  }

  lemma LastIsLatest(r: Run)
    ensures LastOk(r) ==> LatestOf(r.index.last, r.log)
  {
  }

  /** After a crash and a restore at any point, every later decision is the one that would have been made. */
  lemma CrashChangesNoDecision(epoch: int, inputs: seq<Input>, stored: seq<Occurrence>, later: seq<Input>, x: Input)
    requires Steady(inputs)
    requires forall o :: o in stored <==> o in RunFrom(START, epoch, inputs).log
    ensures var crashed := RunFrom(Run(Restore(EMPTY, stored), []), epoch, later);
            Route(crashed.index, epoch, x) == Route(RunFrom(START, epoch, inputs + later).index, epoch, x)
    ensures RunFrom(START, epoch, inputs + later).log
              == RunFrom(START, epoch, inputs).log
                 + RunFrom(Run(Restore(EMPTY, stored), []), epoch, later).log
  {
    hide Route, Restore;
    RestoreIsTheIndex(epoch, inputs, stored);
    RunInTwo(epoch, inputs, later);
    LogsApart(RunFrom(START, epoch, inputs), epoch, later);
  }

  lemma {:induction false} RunInTwo(epoch: int, inputs: seq<Input>, later: seq<Input>)
    ensures RunFrom(START, epoch, inputs + later) == RunFrom(RunFrom(START, epoch, inputs), epoch, later)
    decreases |later|
  {
    hide Extend;
    if later == [] {
      assert inputs + later == inputs;
    } else {
      var n := |inputs + later| - 1;
      assert (inputs + later)[..n] == inputs + later[..|later| - 1];
      RunInTwo(epoch, inputs, later[..|later| - 1]);
    }
  }

  /** The log plays no part in routing. */
  lemma {:induction false} LogsApart(r: Run, epoch: int, inputs: seq<Input>)
    ensures RunFrom(r, epoch, inputs).index == RunFrom(Run(r.index, []), epoch, inputs).index
    ensures RunFrom(r, epoch, inputs).log == r.log + RunFrom(Run(r.index, []), epoch, inputs).log
  {
    hide Route;
    if inputs != [] {
      LogsApart(r, epoch, inputs[..|inputs| - 1]);
    }
  }

  /** Only what was emitted may be restored: with a suppressed occurrence among the restored ones, the alert that
      falls due in its window once the cooldown has passed is taken for a duplicate and lost. */
  lemma RestoringSuppressedLosesAlerts(ix: Index, epoch: int, x: Input, later: int)
    requires Route(ix, epoch, x).1.Cooling?
    requires later - ix.last[(x.rule.id, x.signal.id)] >= x.rule.config.cooldown
    requires KeyOf(epoch, x.(now := later)) == KeyOf(epoch, x)
    ensures Route(ix, epoch, x.(now := later)).1.Emitted?
    ensures var restored := Restore(ix, [Route(ix, epoch, x).1.occurrence]);
            restored != ix && Route(restored, epoch, x.(now := later)).1.Duplicate?
  {
  }

  // -------------------------------------------------------------------- the router

  class AlertRouter {
    const epoch: int
    var byKey: map<Key, Occurrence>
    var last: map<(int, SignalId), int>

    function Contents(): Index
      reads this
    {
      Index(byKey, last)
    }

    constructor (epoch: int)
      ensures this.epoch == epoch && Contents() == EMPTY
    {
      this.epoch := epoch;
      byKey, last := map[], map[];
    }

    /** Rebuild the index after a restart. */
    method RestoreAll(occurrences: seq<Occurrence>)
      modifies this
      ensures Contents() == Restore(old(Contents()), occurrences)
    {
      ghost var before := Contents();
      for i := 0 to |occurrences|
        invariant Contents() == Restore(before, occurrences[..i])
      {
        assert occurrences[..i + 1][..i] == occurrences[..i];
        var o := occurrences[i];
        byKey := byKey[o.key := o];
        var pair := (o.rule, o.signal);
        if pair !in last || o.triggeredAt > last[pair] {
          last := last[pair := o.triggeredAt];
        }
      }
      assert occurrences[..|occurrences|] == occurrences;
    }

    /** Evaluate one signal against one rule. */
    method RouteSignal(rule: Rule, signal: Signal, now: int) returns (d: Decision)
      modifies this
      ensures (Contents(), d) == Route(old(Contents()), epoch, Input(rule, signal, now))
    {
      if !rule.Matches(signal) {
        return NoMatch;
      }
      var key := KeyFor(rule, signal, WindowStart(now, rule.config.dedupWindow, epoch));
      if key in byKey {
        return Duplicate(byKey[key]);
      }
      var pair := (rule.id, signal.id);
      if pair in last && now - last[pair] < rule.config.cooldown {
        return Cooling(Occurrence(rule.id, rule.config, signal.id, Suppressed, signal.availableAt, now, key));
      }
      var o := Occurrence(rule.id, rule.config, signal.id, Pending, signal.availableAt, now, key);
      byKey := byKey[key := o];
      last := last[pair := now];
      return Emitted(o);
    }
  }
}
