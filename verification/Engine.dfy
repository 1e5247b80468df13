// One execution of the feature engine: quality gate, dependency gate, compute, in
// topological order.

module FeatureEngine {
  import opened Wrappers
  import opened FeatureKeys
  import opened Topology
  import opened Availability

  datatype MetricValue = MetricValue(feature: Key, scope: string, value: real, availableAt: int)

  /** What one computation may see. */
  datatype ComputeContext = ComputeContext(
    marketTime: int,
    computedAt: int,
    rawInputIngestedAt: Option<int>,
    dependencies: seq<(Key, MetricValue)>)

  datatype UnavailableReason = QualityNotMet | DependencyUnavailable | Undefined

  datatype Outcome = Values(values: seq<MetricValue>) | Unavailable(feature: Key, reason: UnavailableReason)

  datatype Skipped = Skipped(spec: FeatureSpec, reason: UnavailableReason)

  /** One execution's environment: the state's times, which specs fail their quality requirements,
      and the compute functions. */
  datatype Environment = Environment(
    marketTime: int,
    computedAt: int,
    rawInputIngestedAt: Option<int>,
    unmet: FeatureSpec -> bool,
    compute: (FeatureSpec, ComputeContext) -> Outcome)

  datatype Report = Report(
    values: seq<MetricValue>,
    unavailable: seq<Key>,
    skipped: seq<Skipped>,
    resolved: map<Key, MetricValue>)

  const EMPTY_REPORT := Report([], [], [], map[])

  function Availabilities(dependencies: seq<(Key, MetricValue)>): seq<int> {
    if dependencies == [] then [] else
      Availabilities(dependencies[..|dependencies| - 1]) + [dependencies[|dependencies| - 1].1.availableAt]
  }

  /** The inputs `emit` hands to the formula: the window closes at the market time. */
  function InputsOf(spec: FeatureSpec, ctx: ComputeContext): AvailabilityInputs {
    AvailabilityInputs(ctx.marketTime, ctx.computedAt, spec.availabilityDelay,
                       ctx.rawInputIngestedAt, Availabilities(ctx.dependencies))
  }

  /** A value built by `emit`. */
  predicate Emitted(spec: FeatureSpec, ctx: ComputeContext, value: MetricValue) {
    value.feature == spec.key && value.availableAt == AvailableAt(InputsOf(spec, ctx))
  }

  /** Every compute builds its values with `emit`, and names itself when it has none. */
  ghost predicate UsesEmit(env: Environment) {
    forall spec, ctx ::
      match env.compute(spec, ctx)
      case Values(vs) => forall v | v in vs :: Emitted(spec, ctx, v)
      case Unavailable(feature, _) => feature == spec.key
  }

  function Lookup(keys: seq<Key>, resolved: map<Key, MetricValue>): seq<(Key, MetricValue)>
    requires forall k | k in keys :: k in resolved
  {
    if keys == [] then [] else
      var k := keys[|keys| - 1];
      assert k in keys;
      Lookup(keys[..|keys| - 1], resolved) + [(k, resolved[k])]
  }

  /** The resolved values a spec declares, sorted by key. */
  function DependencyValues(spec: FeatureSpec, resolved: map<Key, MetricValue>): seq<(Key, MetricValue)> {
    Lookup(SortedKeys(set k | k in resolved && k in spec.dependsOn), resolved)
  }

  function ContextFor(env: Environment, spec: FeatureSpec, resolved: map<Key, MetricValue>): ComputeContext {
    ComputeContext(env.marketTime, env.computedAt, env.rawInputIngestedAt, DependencyValues(spec, resolved))
  }

  predicate DependenciesResolved(spec: FeatureSpec, resolved: map<Key, MetricValue>) {
    forall d | d in spec.dependsOn :: d in resolved
  }

  function Record(resolved: map<Key, MetricValue>, values: seq<MetricValue>): map<Key, MetricValue> {
    if values == [] then resolved else
      var last := values[|values| - 1];
      Record(resolved, values[..|values| - 1])[last.feature := last]
  }

  /** Gate, then compute, one feature. */
  function RunOne(env: Environment, report: Report, spec: FeatureSpec): Report {
    if env.unmet(spec) then
      report.(skipped := report.skipped + [Skipped(spec, QualityNotMet)])
    else if !DependenciesResolved(spec, report.resolved) then
      report.(skipped := report.skipped + [Skipped(spec, DependencyUnavailable)])
    else
      match env.compute(spec, ContextFor(env, spec, report.resolved))
      case Unavailable(feature, _) => report.(unavailable := report.unavailable + [feature])
      case Values(vs) =>
        report.(values := report.values + vs, resolved := Record(report.resolved, vs))
  }

  function RunAll(env: Environment, ordered: seq<FeatureSpec>): Report {
    if ordered == [] then EMPTY_REPORT
    else RunOne(env, RunAll(env, ordered[..|ordered| - 1]), ordered[|ordered| - 1])
  }

  // ------------------------------------------------- one spec, in the final report

  /** What the final report says of one spec, given what it says of the others. */
  datatype Verdict = SkippedFor(reason: UnavailableReason) | Absent | Computed(values: seq<MetricValue>)

  function VerdictOf(env: Environment, spec: FeatureSpec, resolved: map<Key, MetricValue>): Verdict {
    if env.unmet(spec) then SkippedFor(QualityNotMet)
    else if !DependenciesResolved(spec, resolved) then SkippedFor(DependencyUnavailable)
    else
      match env.compute(spec, ContextFor(env, spec, resolved))
      case Unavailable(_, _) => Absent
      case Values(vs) => Computed(vs)
  }

  function ValuesOf(values: seq<MetricValue>, k: Key): seq<MetricValue> {
    if values == [] then [] else
      var last := values[|values| - 1];
      ValuesOf(values[..|values| - 1], k) + if last.feature == k then [last] else []
  }

  ghost predicate SkippedAs(report: Report, spec: FeatureSpec, reason: UnavailableReason) {
    Skipped(spec, reason) in report.skipped
  }

  /** The report agrees with a verdict, and with no other. */
  ghost predicate Agrees(report: Report, spec: FeatureSpec, verdict: Verdict) {
    && (forall reason :: SkippedAs(report, spec, reason) <==> verdict == SkippedFor(reason))
    && (spec.key in report.unavailable <==> verdict.Absent?)
    && ValuesOf(report.values, spec.key) == (if verdict.Computed? then verdict.values else [])
    && (spec.key in report.resolved <==> verdict.Computed? && verdict.values != [])
    && (spec.key in report.resolved ==>
          report.resolved[spec.key] == verdict.values[|verdict.values| - 1])
  }

  /** The report speaks only of these specs. */
  ghost predicate Confined(report: Report, ordered: seq<FeatureSpec>) {
    && (forall s | s in report.skipped :: s.spec in ordered)
    && (forall k | k in report.unavailable :: Listed(ordered, k))
    && (forall v | v in report.values :: Listed(ordered, v.feature))
    && (forall k | k in report.resolved :: Listed(ordered, k))
  }

  lemma {:induction false} RecordAll(resolved: map<Key, MetricValue>, values: seq<MetricValue>, k: Key)
    requires forall v | v in values :: v.feature == k
    ensures Record(resolved, values)
              == if values == [] then resolved else resolved[k := values[|values| - 1]]
  {
    if values != [] {
      RecordAll(resolved, values[..|values| - 1], k);
    }
  }

  lemma {:induction false} ValuesOfAppend(values: seq<MetricValue>, more: seq<MetricValue>, k: Key)
    ensures ValuesOf(values + more, k) == ValuesOf(values, k) + ValuesOf(more, k)
  {
    if more == [] {
      assert values + more == values;
    } else {
      ValuesOfAppend(values, more[..|more| - 1], k);
      assert (values + more)[..|values + more| - 1] == values + more[..|more| - 1];
    }
  }

  lemma {:induction false} ValuesOfSingle(values: seq<MetricValue>, feature: Key, k: Key)
    requires forall v | v in values :: v.feature == feature
    ensures ValuesOf(values, k) == if k == feature then values else []
  {
    if values != [] {
      ValuesOfSingle(values[..|values| - 1], feature, k);
      assert values == values[..|values| - 1] + [values[|values| - 1]];
    }
  }

  lemma {:induction false} NoValuesElsewhere(values: seq<MetricValue>, k: Key)
    requires forall v | v in values :: v.feature != k
    ensures ValuesOf(values, k) == []
  {
    if values != [] {
      NoValuesElsewhere(values[..|values| - 1], k);
    }
  }

  /** The context of a spec depends only on what is resolved among its declared dependencies. */
  lemma {:induction false} LookupSame(keys: seq<Key>, a: map<Key, MetricValue>, b: map<Key, MetricValue>)
    requires forall k | k in keys :: k in a && k in b && a[k] == b[k]
    ensures Lookup(keys, a) == Lookup(keys, b)
  {
    if keys != [] {
      assert keys[|keys| - 1] in keys;
      LookupSame(keys[..|keys| - 1], a, b);
    }
  }

  lemma VerdictSame(env: Environment, spec: FeatureSpec, a: map<Key, MetricValue>, b: map<Key, MetricValue>)
    requires forall d | d in spec.dependsOn :: (d in a <==> d in b) && (d in a ==> a[d] == b[d])
    ensures VerdictOf(env, spec, a) == VerdictOf(env, spec, b)
  {
    var keys := set k | k in a && k in spec.dependsOn;
    assert keys == set k | k in b && k in spec.dependsOn;
    LookupSame(SortedKeys(keys), a, b);
  }

  // --------------------------------------------------------- the whole report

  /** Computing one spec leaves what the report says of every other spec alone. */
  lemma RunOneElsewhere(env: Environment, report: Report, spec: FeatureSpec, k: Key)
    requires UsesEmit(env) && k != spec.key
    ensures var after := RunOne(env, report, spec);
            && ValuesOf(after.values, k) == ValuesOf(report.values, k)
            && (k in after.unavailable <==> k in report.unavailable)
            && (k in after.resolved <==> k in report.resolved)
            && (k in after.resolved ==> after.resolved[k] == report.resolved[k])
  {
    if !env.unmet(spec) && DependenciesResolved(spec, report.resolved) {
      var outcome := env.compute(spec, ContextFor(env, spec, report.resolved));
      if outcome.Values? {
        RecordAll(report.resolved, outcome.values, spec.key);
        ValuesOfAppend(report.values, outcome.values, k);
        ValuesOfSingle(outcome.values, spec.key, k);
      }
    }
  }

  /** And records for the spec itself its verdict against what was resolved before. */
  lemma RunOneHere(env: Environment, report: Report, spec: FeatureSpec, before: seq<FeatureSpec>)
    requires UsesEmit(env) && Confined(report, before) && !Listed(before, spec.key)
    ensures Agrees(RunOne(env, report, spec), spec, VerdictOf(env, spec, report.resolved))
  {
    hide ContextFor, DependenciesResolved, UsesEmit;
    NoValuesElsewhere(report.values, spec.key);
    EmittedNames(env, spec, ContextFor(env, spec, report.resolved));
    if !env.unmet(spec) && DependenciesResolved(spec, report.resolved) {
      var outcome := env.compute(spec, ContextFor(env, spec, report.resolved));
      if outcome.Values? {
        RecordAll(report.resolved, outcome.values, spec.key);
        ValuesOfAppend(report.values, outcome.values, spec.key);
        ValuesOfSingle(outcome.values, spec.key, spec.key);
        assert [] + outcome.values == outcome.values;
      }
    }
  }

  lemma RunOneConfined(env: Environment, report: Report, spec: FeatureSpec, before: seq<FeatureSpec>)
    requires UsesEmit(env) && Confined(report, before)
    ensures Confined(RunOne(env, report, spec), before + [spec])
  {
    hide ContextFor, Emitted;
    assert forall k :: Listed(before, k) ==> Listed(before + [spec], k) by {
      forall k | Listed(before, k) ensures Listed(before + [spec], k) {
        ListedAppend(before, spec, k);
      }
    }
    ListedAppend(before, spec, spec.key);
    assert forall s :: s in before + [spec] <==> s in before || s == spec;
    if !env.unmet(spec) && DependenciesResolved(spec, report.resolved) {
      var outcome := env.compute(spec, ContextFor(env, spec, report.resolved));
      if outcome.Values? {
        assert forall v | v in outcome.values :: v.feature == spec.key by {
          EmittedNames(env, spec, ContextFor(env, spec, report.resolved));
        }
        RecordAll(report.resolved, outcome.values, spec.key);
      } else {
        EmittedNames(env, spec, ContextFor(env, spec, report.resolved));
      }
    }
  }

  lemma EmittedNames(env: Environment, spec: FeatureSpec, ctx: ComputeContext)
    ensures UsesEmit(env) ==>
              var computed := env.compute(spec, ctx);
              if computed.Values? then forall v | v in computed.values :: v.feature == spec.key
              else computed.feature == spec.key
  {
  }

  /** Running a spec no earlier one consumes keeps every earlier verdict, and settles its own. */
  lemma RunOneAgrees(env: Environment, report: Report, spec: FeatureSpec, before: seq<FeatureSpec>, s: FeatureSpec)
    requires UsesEmit(env) && Confined(report, before) && !Listed(before, spec.key)
    requires s in before + [spec] && spec.key !in s.dependsOn
    requires s in before ==> Agrees(report, s, VerdictOf(env, s, report.resolved))
    ensures var after := RunOne(env, report, spec);
            Agrees(after, s, VerdictOf(env, s, after.resolved))
  {
    hide RunOne, VerdictOf, Confined;
    var after := RunOne(env, report, spec);
    forall d | d in s.dependsOn
      ensures (d in report.resolved <==> d in after.resolved)
      ensures d in report.resolved ==> report.resolved[d] == after.resolved[d]
    {
      RunOneElsewhere(env, report, spec, d);
    }
    VerdictSame(env, s, report.resolved, after.resolved);
    if s in before {
      assert s.key != spec.key;
      RunOneElsewhere(env, report, spec, s.key);
      RunOneSkips(env, report, spec, s);
    } else {
      RunOneHere(env, report, spec, before);
    }
  }

  lemma RunOneSkips(env: Environment, report: Report, spec: FeatureSpec, s: FeatureSpec)
    ensures s != spec ==>
              (forall reason :: SkippedAs(RunOne(env, report, spec), s, reason) <==> SkippedAs(report, s, reason))
  {
  }

  lemma TopologicalPrefix(g: Graph, ordered: seq<FeatureSpec>, n: nat)
    requires Topological(g, ordered) && n <= |ordered|
    ensures Topological(g, ordered[..n])
  {
    forall i | 0 <= i < n ensures ordered[..n][..i] == ordered[..i] {
    }
  }

  lemma {:induction false} RunAllOk(env: Environment, g: Graph, ordered: seq<FeatureSpec>)
    requires UsesEmit(env) && Topological(g, ordered)
    ensures var report := RunAll(env, ordered);
            && Confined(report, ordered)
            && forall s | s in ordered :: Agrees(report, s, VerdictOf(env, s, report.resolved))
  {
    hide Agrees, VerdictOf, RunOne;
    if ordered != [] {
      var n := |ordered| - 1;
      var before, spec := ordered[..n], ordered[n];
      TopologicalPrefix(g, ordered, n);
      RunAllOk(env, g, before);
      var report := RunAll(env, before);
      assert ordered == before + [spec];
      NotListedBefore(g, ordered);
      RunOneConfined(env, report, spec, before);
      forall s | s in ordered
        ensures Agrees(RunAll(env, ordered), s, VerdictOf(env, s, RunAll(env, ordered).resolved))
      {
        var i :| 0 <= i < |ordered| && ordered[i] == s;
        RunOneAgrees(env, report, spec, before, s);
      }
    }
  }

  lemma NotListedBefore(g: Graph, ordered: seq<FeatureSpec>)
    requires Topological(g, ordered) && ordered != []
    ensures !Listed(ordered[..|ordered| - 1], ordered[|ordered| - 1].key)
  {
  }

  /** The report is the one solution of the gates, whatever the order: each chosen spec is skipped for quality,
      skipped because something it declares has no value in the final report, absent, or computed from exactly
      the values the final report holds for its declared dependencies. */
  lemma ReportIsSelfConsistent(env: Environment, specs: seq<FeatureSpec>)
    requires UsesEmit(env) && Order(ByKey(specs)).Success?
    ensures var g := ByKey(specs);
            var report := RunAll(env, Order(g).value);
            forall k | k in g :: Agrees(report, g[k], VerdictOf(env, g[k], report.resolved))
  {
    hide Order, Agrees, VerdictOf, RunOne;
    var g := ByKey(specs);
    ByKeyKeyed(specs);
    OrderIffAcyclic(g);
    var ordered := Order(g).value;
    RunAllOk(env, g, ordered);
    forall k | k in g
      ensures Agrees(RunAll(env, ordered), g[k], VerdictOf(env, g[k], RunAll(env, ordered).resolved))
    {
      assert Listed(ordered, k);
      var s :| s in ordered && s.key == k;
    }
  }

  /** What a compute may be shown: the environment's times, and of what is resolved just the declared dependencies, each
      with its value, by key. */
  ghost predicate Shown(env: Environment, spec: FeatureSpec, resolved: map<Key, MetricValue>, ctx: ComputeContext) {
    && ctx.marketTime == env.marketTime && ctx.computedAt == env.computedAt
    && ctx.rawInputIngestedAt == env.rawInputIngestedAt
    && (forall k, v :: (k, v) in ctx.dependencies <==> k in spec.dependsOn && k in resolved && resolved[k] == v)
    && forall i, j | 0 <= i < j < |ctx.dependencies| ::
         KeyAtMost(ctx.dependencies[i].0, ctx.dependencies[j].0) && ctx.dependencies[i].0 != ctx.dependencies[j].0
  }

  lemma {:induction false} LookupIs(keys: seq<Key>, resolved: map<Key, MetricValue>)
    requires forall k | k in keys :: k in resolved
    ensures |Lookup(keys, resolved)| == |keys|
    ensures forall i | 0 <= i < |keys| :: keys[i] in resolved && Lookup(keys, resolved)[i] == (keys[i], resolved[keys[i]])
  {
    if keys != [] {
      assert keys[|keys| - 1] in keys;
      LookupIs(keys[..|keys| - 1], resolved);
    }
  }

  lemma ContextIsShown(env: Environment, spec: FeatureSpec, resolved: map<Key, MetricValue>)
    ensures Shown(env, spec, resolved, ContextFor(env, spec, resolved))
  {
    hide Lookup, KeyAtMost;
    var wanted := set k | k in resolved && k in spec.dependsOn;
    var keys, found := SortedKeys(wanted), DependencyValues(spec, resolved);
    SortedKeysIncrease(wanted);
    LookupIs(keys, resolved);
    forall k, v ensures (k, v) in found <==> k in spec.dependsOn && k in resolved && resolved[k] == v {
      if k in spec.dependsOn && k in resolved && resolved[k] == v {
        assert k in keys;
        var i :| 0 <= i < |keys| && keys[i] == k;
        assert found[i] == (k, v);
      }
      if (k, v) in found {
        var i :| 0 <= i < |found| && found[i] == (k, v);
        assert keys[i] in keys;
      }
    }
  }

  /** Each chosen spec in plain terms: skipped for quality exactly when its requirements are unmet; skipped for a dependency
      exactly when they are met and something it declares has no value; otherwise the report holds what its compute
      answers when shown the times and the final values of what it declares. */
  lemma VerdictsExactly(env: Environment, specs: seq<FeatureSpec>, k: Key)
    requires UsesEmit(env) && Order(ByKey(specs)).Success? && k in ByKey(specs)
    ensures var spec, report := ByKey(specs)[k], RunAll(env, Order(ByKey(specs)).value);
            var missing := exists d :: d in spec.dependsOn && d !in report.resolved;
            && spec.key == k
            && (Skipped(spec, QualityNotMet) in report.skipped <==> env.unmet(spec))
            && (Skipped(spec, DependencyUnavailable) in report.skipped <==> !env.unmet(spec) && missing)
            && Skipped(spec, Undefined) !in report.skipped
            && (!env.unmet(spec) && !missing ==>
                  exists ctx :: Shown(env, spec, report.resolved, ctx)
                    && Holds(report, k, env.compute(spec, ctx)))
            && (env.unmet(spec) || missing ==>
                  k !in report.unavailable && k !in report.resolved && ValuesOf(report.values, k) == [])
  {
    hide Order, RunAll, Shown, ContextFor, UsesEmit, ByKey;
    var spec, report := ByKey(specs)[k], RunAll(env, Order(ByKey(specs)).value);
    ByKeyKeyed(specs);
    KeyedAt(ByKey(specs), k);
    ReportIsSelfConsistent(env, specs);
    ContextIsShown(env, spec, report.resolved);
    assert forall reason :: SkippedAs(report, spec, reason) <==> Skipped(spec, reason) in report.skipped;
    AgreesHolds(env, spec, report);
  }

  /** The report holds a compute's answer under its key: all its values, in order, the last of them resolved. */
  ghost predicate Holds(report: Report, k: Key, answer: Outcome) {
    if answer.Values? then
      && ValuesOf(report.values, k) == answer.values && k !in report.unavailable
      && (k in report.resolved <==> answer.values != [])
      && (answer.values != [] ==> report.resolved[k] == answer.values[|answer.values| - 1])
    else k in report.unavailable && k !in report.resolved && ValuesOf(report.values, k) == []
  }

  lemma AgreesHolds(env: Environment, spec: FeatureSpec, report: Report)
    requires Agrees(report, spec, VerdictOf(env, spec, report.resolved))
    ensures !env.unmet(spec) && DependenciesResolved(spec, report.resolved) ==>
              Holds(report, spec.key, env.compute(spec, ContextFor(env, spec, report.resolved)))
    ensures forall reason :: SkippedAs(report, spec, reason) <==>
              if env.unmet(spec) then reason == QualityNotMet
              else !DependenciesResolved(spec, report.resolved) && reason == DependencyUnavailable
    ensures env.unmet(spec) || !DependenciesResolved(spec, report.resolved) ==>
              spec.key !in report.unavailable && spec.key !in report.resolved && ValuesOf(report.values, spec.key) == []
  {
    hide ContextFor;
  }

  /** Each chosen spec lands in exactly one of computed, absent and skipped, unless its compute
      answered with an empty list: then it lands in none. */
  lemma ExactlyOnePlace(env: Environment, spec: FeatureSpec, report: Report)
    requires Agrees(report, spec, VerdictOf(env, spec, report.resolved))
    ensures var verdict := VerdictOf(env, spec, report.resolved);
            var computed, absent := spec.key in report.resolved, spec.key in report.unavailable;
            var skipped := exists reason :: SkippedAs(report, spec, reason);
            && !(computed && absent) && !(computed && skipped) && !(absent && skipped)
            && (computed || absent || skipped <==> verdict != Computed([]))
            && (computed ==> DependenciesResolved(spec, report.resolved))
  {
  }

  // -------------------------------------------------------- look-ahead freedom

  lemma {:induction false} LookupHas(keys: seq<Key>, resolved: map<Key, MetricValue>, k: Key)
    requires forall j | j in keys :: j in resolved
    requires k in keys
    ensures resolved[k].availableAt in Availabilities(Lookup(keys, resolved))
  {
    var last, before := keys[|keys| - 1], keys[..|keys| - 1];
    var found := Lookup(before, resolved) + [(last, resolved[last])];
    assert last in keys;
    assert found[..|found| - 1] == Lookup(before, resolved);
    if k != last {
      LookupHas(before, resolved, k);
    }
  }

  /** A computed value is available no earlier than every input it had, plus its own delay. */
  lemma ValueAfterInputs(env: Environment, spec: FeatureSpec, report: Report, t: int)
    requires UsesEmit(env) && spec.key in report.resolved
    requires Agrees(report, spec, VerdictOf(env, spec, report.resolved))
    requires || t == env.marketTime || t == env.computedAt || env.rawInputIngestedAt == Some(t)
             || exists d | d in spec.dependsOn && d in report.resolved :: report.resolved[d].availableAt == t
    ensures report.resolved[spec.key].availableAt >= t + spec.availabilityDelay
    ensures forall v | v in ValuesOf(report.values, spec.key) ::
              v.availableAt == report.resolved[spec.key].availableAt
  {
    var ctx := ContextFor(env, spec, report.resolved);
    var inputs := InputsOf(spec, ctx);
    var vs := env.compute(spec, ctx).values;
    assert Emitted(spec, ctx, vs[|vs| - 1]);
    AvailableAfterLastCondition(inputs);
    assert Condition(inputs, t) by {
      if d :| d in spec.dependsOn && d in report.resolved && report.resolved[d].availableAt == t {
        LookupHas(SortedKeys(set k | k in report.resolved && k in spec.dependsOn), report.resolved, d);
      }
    }
  }

  /** A time a computed value has to wait for: the market time, the computation, the raw observations, or the availability
      of a declared dependency. */
  ghost predicate WaitsFor(env: Environment, spec: FeatureSpec, resolved: map<Key, MetricValue>, t: int) {
    || t == env.marketTime || t == env.computedAt || env.rawInputIngestedAt == Some(t)
    || exists d :: d in spec.dependsOn && d in resolved && resolved[d].availableAt == t
  }

  lemma {:induction false} AvailabilitiesFrom(dependencies: seq<(Key, MetricValue)>, t: int)
    ensures t in Availabilities(dependencies) <==> exists i | 0 <= i < |dependencies| :: dependencies[i].1.availableAt == t
  {
    if dependencies != [] {
      AvailabilitiesFrom(dependencies[..|dependencies| - 1], t);
    }
  }

  lemma ConditionIsWaitedFor(env: Environment, spec: FeatureSpec, resolved: map<Key, MetricValue>, t: int)
    ensures Condition(InputsOf(spec, ContextFor(env, spec, resolved)), t) <==> WaitsFor(env, spec, resolved, t)
  {
    hide Availabilities, DependencyValues;
    var ctx := ContextFor(env, spec, resolved);
    ContextIsShown(env, spec, resolved);
    AvailabilitiesFrom(ctx.dependencies, t);
    if d :| d in spec.dependsOn && d in resolved && resolved[d].availableAt == t {
      assert (d, resolved[d]) in ctx.dependencies;
      var i :| 0 <= i < |ctx.dependencies| && ctx.dependencies[i] == (d, resolved[d]);
    }
    if i :| 0 <= i < |ctx.dependencies| && ctx.dependencies[i].1.availableAt == t {
      assert (ctx.dependencies[i].0, ctx.dependencies[i].1) in ctx.dependencies;
    }
  }

  /** A computed value is available just its own delay after the last of these times. */
  lemma AvailableOnceWaited(env: Environment, spec: FeatureSpec, report: Report)
    requires UsesEmit(env) && spec.key in report.resolved
    requires Agrees(report, spec, VerdictOf(env, spec, report.resolved))
    ensures var last := report.resolved[spec.key].availableAt - spec.availabilityDelay;
            && WaitsFor(env, spec, report.resolved, last)
            && forall t | WaitsFor(env, spec, report.resolved, t) :: t <= last
  {
    hide WaitsFor, InputsOf, ContextFor, AvailableAt, Condition;
    var ctx := ContextFor(env, spec, report.resolved);
    var vs := env.compute(spec, ctx).values;
    assert Emitted(spec, ctx, vs[|vs| - 1]);
    AvailableAfterLastCondition(InputsOf(spec, ctx));
    DelayIs(spec, ctx);
    forall t ensures Condition(InputsOf(spec, ctx), t) <==> WaitsFor(env, spec, report.resolved, t) {
      ConditionIsWaitedFor(env, spec, report.resolved, t);
    }
  }

  lemma DelayIs(spec: FeatureSpec, ctx: ComputeContext)
    ensures InputsOf(spec, ctx).availabilityDelay == spec.availabilityDelay
  {
  }

  /** Computed features, each consuming the next. */
  ghost predicate Chain(g: Graph, report: Report, c: seq<Key>) {
    && c != []
    && (forall k | k in c :: k in g && k in report.resolved)
    && forall i | 0 <= i < |c| - 1 :: c[i + 1] in g[c[i]].dependsOn
  }

  function DelayAlong(g: Graph, c: seq<Key>): nat
    requires forall k | k in c :: k in g
  {
    if c == [] then 0 else
      assert c[0] in c;
      assert forall k | k in c[1..] :: k in c;
      g[c[0]].availabilityDelay + DelayAlong(g, c[1..])
  }

  /** No look-ahead along any dependency chain: a value is available no earlier than the ingestion of the raw
      observations, the market time and the computation, plus the sum of the delays along the chain. */
  lemma {:induction false} NoLookAhead(env: Environment, g: Graph, report: Report, c: seq<Key>, t: int)
    requires UsesEmit(env) && Keyed(g) && Chain(g, report, c)
    requires forall k | k in g :: Agrees(report, g[k], VerdictOf(env, g[k], report.resolved))
    requires t == env.marketTime || t == env.computedAt || env.rawInputIngestedAt == Some(t)
    ensures report.resolved[c[0]].availableAt >= t + DelayAlong(g, c)
    ensures forall v | v in report.values && v.feature == c[0] :: v.availableAt >= t + DelayAlong(g, c)
    decreases |c|
  {
    hide Agrees, VerdictOf, UsesEmit, Keyed;
    var k := c[0];
    assert k in c && g[k].key == k by { KeyedAt(g, k); }
    if |c| == 1 {
      assert c[1..] == [];
      ValueAfterInputs(env, g[k], report, t);
    } else {
      var rest := c[1..];
      assert forall j | j in rest :: j in c;
      assert Chain(g, report, rest) by {
        forall i | 0 <= i < |rest| - 1 ensures rest[i + 1] in g[rest[i]].dependsOn {
          assert rest[i] == c[i + 1] && rest[i + 1] == c[i + 2];
        }
      }
      NoLookAhead(env, g, report, rest, t);
      assert c[1] in g[c[0]].dependsOn;
      ValueAfterInputs(env, g[k], report, report.resolved[rest[0]].availableAt);
    }
    forall v | v in report.values && v.feature == k ensures v in ValuesOf(report.values, k) {
      ValuesOfHas(report.values, v);
    }
  }

  lemma KeyedAt(g: Graph, k: Key)
    ensures Keyed(g) && k in g ==> g[k].key == k
  {
  }

  lemma {:induction false} ValuesOfHas(values: seq<MetricValue>, v: MetricValue)
    requires v in values
    ensures v in ValuesOf(values, v.feature)
  {
    if v != values[|values| - 1] {
      ValuesOfHas(values[..|values| - 1], v);
    }
  }

  // ------------------------------------------------------------------ the engine

  method RecordEach(values: seq<MetricValue>, resolved: map<Key, MetricValue>, produced: seq<MetricValue>)
    returns (values': seq<MetricValue>, resolved': map<Key, MetricValue>)
    ensures values' == values + produced && resolved' == Record(resolved, produced)
  {
    values', resolved' := values, resolved;
    for j := 0 to |produced|
      invariant values' == values + produced[..j] && resolved' == Record(resolved, produced[..j])
    {
      assert produced[..j + 1][..j] == produced[..j];
      values' := values' + [produced[j]];
      resolved' := resolved'[produced[j].feature := produced[j]];
    }
    assert produced[..|produced|] == produced;
  }

  /** Quality-gate, order, compute; the cycle path if the dependencies have one. */
  method Run(env: Environment, specs: seq<FeatureSpec>) returns (r: Result<Report, seq<Key>>)
    ensures var order := Order(ByKey(specs));
            r == if order.Failure? then Failure(order.error) else Success(RunAll(env, order.value))
  {
    hide Order, ByKey, ContextFor, DependenciesResolved;
    var sorted := TopologicalOrder(specs);
    if sorted.Failure? {
      return Failure(sorted.error);
    }
    var ordered := sorted.value;
    var values: seq<MetricValue>, unavailable: seq<Key>, skipped: seq<Skipped> := [], [], [];
    var resolved: map<Key, MetricValue> := map[];
    for i := 0 to |ordered|
      invariant Report(values, unavailable, skipped, resolved) == RunAll(env, ordered[..i])
    {
      assert ordered[..i + 1][..i] == ordered[..i];
      var spec := ordered[i];
      if env.unmet(spec) {
        skipped := skipped + [Skipped(spec, QualityNotMet)];
        continue;
      }
      if !DependenciesResolved(spec, resolved) {
        skipped := skipped + [Skipped(spec, DependencyUnavailable)];
        continue;
      }
      match env.compute(spec, ContextFor(env, spec, resolved)) {
        case Unavailable(feature, _) =>
          unavailable := unavailable + [feature];
        case Values(produced) =>
          values, resolved := RecordEach(values, resolved, produced);
      }
    }
    assert ordered[..|ordered|] == ordered;
    r := Success(Report(values, unavailable, skipped, resolved));
  }
}
