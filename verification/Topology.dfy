// Ordering features by their declared dependencies: a depth-first topological
// sort over the chosen features, with a cycle reported instead of recursed into.

module Topology {
  import opened Wrappers
  import opened FeatureKeys

  /** A feature: its key, the features it consumes, and its propagation delay. */
  datatype FeatureSpec = FeatureSpec(key: Key, dependsOn: seq<Key>, availabilityDelay: nat)

  type Graph = map<Key, FeatureSpec>

  /** `{spec.key: spec for spec in specs}`: a later spec replaces an earlier one of the same key. */
  function ByKey(specs: seq<FeatureSpec>): Graph {
    if specs == [] then map[] else
      var last := specs[|specs| - 1];
      ByKey(specs[..|specs| - 1])[last.key := last]
  }

  ghost predicate Keyed(g: Graph) {
    forall k | k in g :: g[k].key == k
  }

  /** The chosen features that `k` consumes. */
  function Dependencies(g: Graph, k: Key): set<Key>
    requires k in g
  {
    set d | d in g[k].dependsOn && d in g
  }

  datatype Mark = InProgress | Done

  datatype Walk = Walk(state: map<Key, Mark>, ordered: seq<FeatureSpec>)

  const START := Walk(map[], [])

  ghost function Unmarked(g: Graph, w: Walk): nat {
    |g.Keys - w.state.Keys|
  }

  /** Visit one feature; a failure carries the path that led back to a feature in progress. */
  function Visit(g: Graph, key: Key, trail: seq<Key>, w: Walk): (r: Result<Walk, seq<Key>>)
    requires key in g
    ensures r.Success? ==> w.state.Keys <= r.value.state.Keys
    decreases Unmarked(g, w), 0
  {
    if key in w.state then
      if w.state[key].Done? then Success(w) else Failure(trail + [key])
    else
      var marked := w.(state := w.state[key := InProgress]);
      assert Unmarked(g, marked) < Unmarked(g, w) by { MarkShrinks(g, w, key, InProgress); }
      var r := VisitAll(g, SortedKeys(Dependencies(g, key)), trail + [key], marked);
      if r.Failure? then r else
        Success(Walk(r.value.state[key := Done], r.value.ordered + [g[key]]))
  }

  function VisitAll(g: Graph, keys: seq<Key>, trail: seq<Key>, w: Walk): (r: Result<Walk, seq<Key>>)
    requires forall k | k in keys :: k in g
    ensures r.Success? ==> w.state.Keys <= r.value.state.Keys
    decreases Unmarked(g, w), |keys|
  {
    if keys == [] then Success(w) else
      var r := Visit(g, keys[0], trail, w);
      if r.Failure? then r else
        assert Unmarked(g, r.value) <= Unmarked(g, w) by { MarksShrink(g, w, r.value); }
        VisitAll(g, keys[1..], trail, r.value)
  }

  lemma MarkShrinks(g: Graph, w: Walk, key: Key, mark: Mark)
    requires key in g && key !in w.state
    ensures |g.Keys - w.state[key := mark].Keys| < |g.Keys - w.state.Keys|
  {
    assert g.Keys - w.state[key := mark].Keys == (g.Keys - w.state.Keys) - {key};
  }

  lemma MarksShrink(g: Graph, before: Walk, after: Walk)
    requires before.state.Keys <= after.state.Keys
    ensures Unmarked(g, after) <= Unmarked(g, before)
  {
    SubsetSize(g.Keys - after.state.Keys, g.Keys - before.state.Keys);
  }

  lemma {:induction false} SubsetSize(s: set<Key>, t: set<Key>)
    requires s <= t
    ensures |s| <= |t|
  {
    assert |t| == |s| + |t - s| by {
      assert s + (t - s) == t;
    }
  }

  /** `topological_order`, as a function of the keyed specs. */
  function Order(g: Graph): Result<seq<FeatureSpec>, seq<Key>> {
    var r := VisitAll(g, SortedKeys(g.Keys), [], START);
    if r.Failure? then Failure(r.error) else Success(r.value.ordered)
  }

  // ----------------------------------------------------------------- the walk

  ghost predicate Edge(g: Graph, from: Key, to: Key) {
    from in g && to in Dependencies(g, from)
  }

  /** Each key consumes the next. */
  ghost predicate Path(g: Graph, p: seq<Key>) {
    && (forall k | k in p :: k in g)
    && forall i | 0 <= i < |p| - 1 :: Edge(g, p[i], p[i + 1])
  }

  ghost predicate Cycle(g: Graph, c: seq<Key>) {
    |c| >= 2 && c[0] == c[|c| - 1] && Path(g, c)
  }

  ghost predicate Listed(ordered: seq<FeatureSpec>, k: Key) {
    exists s | s in ordered :: s.key == k
  }

  /** No feature twice, each the chosen spec of its key, each after everything it consumes. */
  ghost predicate Topological(g: Graph, ordered: seq<FeatureSpec>) {
    && (forall s | s in ordered :: s.key in g && g[s.key] == s)
    && (forall i, j | 0 <= i < j < |ordered| :: ordered[i].key != ordered[j].key)
    && forall i | 0 <= i < |ordered| ::
         forall d | d in ordered[i].dependsOn && d in g :: Listed(ordered[..i], d)
  }

  /** While `trail` is being visited: its keys are in progress, and what is done is listed. */
  ghost predicate WalkOk(g: Graph, trail: seq<Key>, w: Walk) {
    && Keyed(g)
    && Path(g, trail)
    && w.state.Keys <= g.Keys
    && (forall k :: k in w.state && w.state[k].InProgress? <==> k in trail)
    && (forall k :: k in w.state && w.state[k].Done? <==> Listed(w.ordered, k))
    && Topological(g, w.ordered)
  }

  /** A path that ends where it has been before. */
  ghost predicate Returns(g: Graph, p: seq<Key>) {
    Path(g, p) && p != [] && p[|p| - 1] in p[..|p| - 1]
  }

  lemma ListedAppend(ordered: seq<FeatureSpec>, s: FeatureSpec, k: Key)
    ensures Listed(ordered + [s], k) <==> Listed(ordered, k) || s.key == k
  {
  }

  lemma TopologicalAppend(g: Graph, ordered: seq<FeatureSpec>, k: Key)
    requires Keyed(g) && Topological(g, ordered) && k in g && !Listed(ordered, k)
    requires forall d | d in Dependencies(g, k) :: Listed(ordered, d)
    ensures Topological(g, ordered + [g[k]])
  {
    var longer := ordered + [g[k]];
    forall i, j | 0 <= i < j < |longer| ensures longer[i].key != longer[j].key {
      if j == |ordered| {
        assert longer[i] in ordered;
      }
    }
    forall i | 0 <= i < |longer| ensures forall d | d in longer[i].dependsOn && d in g :: Listed(longer[..i], d) {
      assert longer[..i] == ordered[..i];
      assert ordered[..|ordered|] == ordered;
    }
  }

  lemma PathPrefix(g: Graph, trail: seq<Key>, key: Key)
    requires Path(g, trail + [key])
    ensures Path(g, trail)
  {
    var longer := trail + [key];
    assert forall k | k in trail :: k in longer;
    forall i | 0 <= i < |trail| - 1 ensures Edge(g, trail[i], trail[i + 1]) {
      assert Edge(g, longer[i], longer[i + 1]);
    }
  }

  lemma MarkOk(g: Graph, key: Key, trail: seq<Key>, w: Walk)
    requires WalkOk(g, trail, w) && key in g && key !in w.state
    requires trail != [] ==> Edge(g, trail[|trail| - 1], key)
    ensures WalkOk(g, trail + [key], w.(state := w.state[key := InProgress]))
  {
  }

  lemma ReturnsToTrail(g: Graph, key: Key, trail: seq<Key>, w: Walk)
    requires WalkOk(g, trail, w) && key in g && key in w.state && w.state[key].InProgress?
    requires trail != [] ==> Edge(g, trail[|trail| - 1], key)
    ensures Returns(g, trail + [key])
  {
    assert (trail + [key])[..|trail|] == trail;
  }

  lemma AlreadyListed(g: Graph, key: Key, trail: seq<Key>, w: Walk)
    ensures WalkOk(g, trail, w) && key in w.state && w.state[key].Done? ==> Listed(w.ordered, key)
  {
  }

  lemma StillListed(ordered: seq<FeatureSpec>, longer: seq<FeatureSpec>, k: Key)
    ensures Listed(ordered, k) && ordered <= longer ==> Listed(longer, k)
  {
  }

  /** One visit either lists the feature, keeping everything in place, or returns to the trail. */
  lemma {:induction false} VisitOk(g: Graph, key: Key, trail: seq<Key>, w: Walk)
    requires WalkOk(g, trail, w) && key in g && (trail != [] ==> Edge(g, trail[|trail| - 1], key))
    ensures var r := Visit(g, key, trail, w);
            match r
            case Success(after) =>
              WalkOk(g, trail, after) && Listed(after.ordered, key) && w.ordered <= after.ordered
            case Failure(path) => Returns(g, path)
    decreases Unmarked(g, w), 0
  {
    hide WalkOk, Returns, Listed, SortedKeys;
    if key in w.state {
      if w.state[key].InProgress? {
        ReturnsToTrail(g, key, trail, w);
      } else {
        AlreadyListed(g, key, trail, w);
      }
    } else {
      var marked, keys := w.(state := w.state[key := InProgress]), SortedKeys(Dependencies(g, key));
      MarkShrinks(g, w, key, InProgress);
      MarkOk(g, key, trail, w);
      VisitAllOk(g, keys, trail + [key], marked);
      var r := VisitAll(g, keys, trail + [key], marked);
      if r.Success? {
        NotOnTrail(g, key, trail, w);
        FinishOk(g, key, trail, r.value);
      }
    }
  }

  lemma NotOnTrail(g: Graph, key: Key, trail: seq<Key>, w: Walk)
    ensures WalkOk(g, trail, w) && key !in w.state ==> key !in trail
  {
  }

  lemma FinishOk(g: Graph, key: Key, trail: seq<Key>, w: Walk)
    requires key in g && key !in trail && WalkOk(g, trail + [key], w)
    requires forall d | d in Dependencies(g, key) :: Listed(w.ordered, d)
    ensures var after := Walk(w.state[key := Done], w.ordered + [g[key]]);
            WalkOk(g, trail, after) && Listed(after.ordered, key)
  {
    var longer, after := trail + [key], Walk(w.state[key := Done], w.ordered + [g[key]]);
    hide Topological, Path;
    assert key in longer && w.state[key].InProgress?;
    PathPrefix(g, trail, key);
    TopologicalAppend(g, w.ordered, key);
    forall k ensures k in after.state && after.state[k].Done? <==> Listed(after.ordered, k) {
      ListedAppend(w.ordered, g[key], k);
    }
    assert forall k :: k in longer <==> k in trail || k == key;
  }

  lemma {:induction false} VisitAllOk(g: Graph, keys: seq<Key>, trail: seq<Key>, w: Walk)
    requires WalkOk(g, trail, w)
    requires forall k | k in keys :: k in g && (trail != [] ==> Edge(g, trail[|trail| - 1], k))
    ensures var r := VisitAll(g, keys, trail, w);
            match r
            case Success(after) =>
              WalkOk(g, trail, after) && w.ordered <= after.ordered && forall k | k in keys :: Listed(after.ordered, k)
            case Failure(path) => Returns(g, path)
    decreases Unmarked(g, w), |keys|
  {
    hide WalkOk, Returns, Listed, Visit, Edge;
    if keys != [] {
      VisitOk(g, keys[0], trail, w);
      var r := Visit(g, keys[0], trail, w);
      if r.Success? {
        MarksShrink(g, w, r.value);
        VisitAllOk(g, keys[1..], trail, r.value);
        var all := VisitAll(g, keys[1..], trail, r.value);
        if all.Success? {
          StillListed(r.value.ordered, all.value.ordered, keys[0]);
          assert forall k | k in keys :: k == keys[0] || k in keys[1..];
        }
      }
    }
  }

  // --------------------------------------------------------------- the results

  /** A returning path contains a cycle. */
  lemma ReturnsHasCycle(g: Graph, p: seq<Key>) returns (c: seq<Key>)
    requires Returns(g, p)
    ensures Cycle(g, c) && exists i | 0 <= i <= |p| :: c == p[i..]
  {
    var i :| 0 <= i < |p| - 1 && p[i] == p[|p| - 1];
    c := p[i..];
    assert forall k | k in c :: k in p;
  }

  lemma PositionOf(g: Graph, ordered: seq<FeatureSpec>, k: Key) returns (i: nat)
    requires Topological(g, ordered) && Listed(ordered, k)
    ensures i < |ordered| && ordered[i].key == k
  {
    var s :| s in ordered && s.key == k;
    i :| 0 <= i < |ordered| && ordered[i] == s;
  }

  lemma {:induction false} PathDescends(g: Graph, ordered: seq<FeatureSpec>, c: seq<Key>, i: nat, j: nat)
    requires Topological(g, ordered) && Path(g, c) && |c| >= 2
    requires forall k | k in c :: Listed(ordered, k)
    requires i < |ordered| && j < |ordered| && ordered[i].key == c[0] && ordered[j].key == c[|c| - 1]
    ensures j < i
    decreases |c|
  {
    var m := PositionOf(g, ordered, c[1]);
    assert Edge(g, c[0], c[1]);
    if |c| > 2 {
      assert forall k | k in c[1..] :: k in c;
      PathDescends(g, ordered, c[1..], m, j);
    }
  }

  /** The sort answers with an order exactly when there is no cycle among the chosen features. The order lists
      every chosen spec once, after all it consumes; a refusal reports a path with a cycle in it. */
  lemma OrderIffAcyclic(g: Graph)
    requires Keyed(g)
    ensures Order(g).Success? <==> !exists c :: Cycle(g, c)
    ensures Order(g).Success? ==> Topological(g, Order(g).value) && forall k :: k in g <==> Listed(Order(g).value, k)
    ensures Order(g).Failure? ==> exists i | 0 <= i <= |Order(g).error| :: Cycle(g, Order(g).error[i..])
  {
    assert WalkOk(g, [], START);
    VisitAllOk(g, SortedKeys(g.Keys), [], START);
    if Order(g).Failure? {
      var c := ReturnsHasCycle(g, Order(g).error);
    } else {
      var ordered := Order(g).value;
      forall k ensures k in g <==> Listed(ordered, k) {
        if k in g { assert k in SortedKeys(g.Keys); }
      }
      forall c ensures !Cycle(g, c) {
        if Cycle(g, c) {
          assert c[0] in c;
          var i := PositionOf(g, ordered, c[0]);
          PathDescends(g, ordered, c, i, i);
        }
      }
    }
  }

  // ------------------------------------------------------------------- ties

  /** `from` is `to`, or consumes it through others. */
  ghost predicate Reaches(g: Graph, from: Key, to: Key) {
    exists p :: Path(g, p) && p != [] && p[0] == from && p[|p| - 1] == to
  }

  lemma ReachesItself(g: Graph, k: Key)
    ensures k in g ==> Reaches(g, k, k)
  {
    if k in g {
      assert Path(g, [k]) && [k][0] == [k][|[k]| - 1] == k;
    }
  }

  lemma ReachesOn(g: Graph, a: Key, b: Key, c: Key)
    ensures Edge(g, a, b) && Reaches(g, b, c) ==> Reaches(g, a, c)
  {
    if Edge(g, a, b) && Reaches(g, b, c) {
      var p :| Path(g, p) && p != [] && p[0] == b && p[|p| - 1] == c;
      var longer := [a] + p;
      forall i | 0 <= i < |longer| - 1 ensures Edge(g, longer[i], longer[i + 1]) {
        if i > 0 { assert Edge(g, p[i - 1], p[i]); }
      }
      assert Path(g, longer) && longer[0] == a && longer[|longer| - 1] == c;
    }
  }

  /** A visit lists only what its key reaches. */
  lemma {:induction false} VisitReaches(g: Graph, key: Key, trail: seq<Key>, w: Walk)
    requires Keyed(g) && key in g
    ensures var r := Visit(g, key, trail, w);
            r.Success? ==> forall s | s in r.value.ordered :: s in w.ordered || Reaches(g, key, s.key)
    decreases Unmarked(g, w), 0
  {
    hide Reaches, SortedKeys;
    ReachesItself(g, key);
    if key !in w.state {
      var marked, keys := w.(state := w.state[key := InProgress]), SortedKeys(Dependencies(g, key));
      MarkShrinks(g, w, key, InProgress);
      VisitAllReaches(g, keys, trail + [key], marked);
      forall k, t | k in keys && Reaches(g, k, t) ensures Reaches(g, key, t) {
        ReachesOn(g, key, k, t);
      }
    }
  }

  lemma {:induction false} VisitAllReaches(g: Graph, keys: seq<Key>, trail: seq<Key>, w: Walk)
    requires Keyed(g) && forall k | k in keys :: k in g
    ensures var r := VisitAll(g, keys, trail, w);
            r.Success? ==>
              forall s | s in r.value.ordered :: s in w.ordered || exists k | k in keys :: Reaches(g, k, s.key)
    decreases Unmarked(g, w), |keys|
  {
    hide Reaches, Visit, Keyed;
    if keys != [] {
      VisitReaches(g, keys[0], trail, w);
      var r := Visit(g, keys[0], trail, w);
      if r.Success? {
        MarksShrink(g, w, r.value);
        VisitAllReaches(g, keys[1..], trail, r.value);
        assert keys[0] in keys && forall k | k in keys[1..] :: k in keys;
      }
    }
  }

  /** A key no greater than `k` reaches `first`. */
  ghost predicate Called(g: Graph, first: Key, k: Key) {
    exists m :: KeyAtMost(m, k) && Reaches(g, m, first)
  }

  /** Whatever is listed before another feature is reached from a key no greater than that other's. */
  ghost predicate TiesByKey(g: Graph, ordered: seq<FeatureSpec>) {
    forall i, j | 0 <= i < j < |ordered| :: Called(g, ordered[i].key, ordered[j].key)
  }

  /** After visiting the keys `done`, with `rest` to come. */
  ghost predicate Rooted(g: Graph, done: seq<Key>, rest: seq<Key>, w: Walk) {
    && (forall k | k in done :: Listed(w.ordered, k))
    && (forall k | k in g :: k in done || k in rest)
    && (forall a, b | a in done && b in rest :: KeyAtMost(a, b))
    && (forall s | s in w.ordered :: exists m | m in done :: Reaches(g, m, s.key))
  }

  /** What is newly listed is not among the keys done. */
  lemma NewKey(g: Graph, earlier: seq<FeatureSpec>, after: seq<FeatureSpec>, done: seq<Key>, j: nat)
    requires Topological(g, after) && earlier <= after && (forall k | k in done :: Listed(earlier, k))
    requires |earlier| <= j < |after|
    ensures after[j].key !in done && after[j].key in g
  {
    assert after[j] in after;
    forall k | k in done ensures after[j].key != k {
      var s :| s in earlier && s.key == k;
      var p :| 0 <= p < |earlier| && earlier[p] == s;
      assert after[p].key == k;
    }
  }

  lemma TiesExtend(g: Graph, done: seq<Key>, root: Key, earlier: seq<FeatureSpec>, after: seq<FeatureSpec>)
    requires TiesByKey(g, earlier) && earlier <= after
    requires forall j | |earlier| <= j < |after| :: KeyAtMost(root, after[j].key)
    requires forall k | k in done :: KeyAtMost(k, root)
    requires forall s | s in earlier :: exists m | m in done :: Reaches(g, m, s.key)
    requires forall s | s in after :: s in earlier || Reaches(g, root, s.key)
    ensures TiesByKey(g, after)
  {
    hide KeyAtMost, Reaches;
    forall i, j | 0 <= i < j < |after| ensures Called(g, after[i].key, after[j].key) {
      if j >= |earlier| {
        assert after[i] in after;
        if after[i] in earlier {
          var m :| m in done && Reaches(g, m, after[i].key);
          KeyTransitive(m, root, after[j].key);
        }
      } else {
        assert after[i] == earlier[i] && after[j] == earlier[j];
      }
    }
  }

  lemma RootedOn(g: Graph, done: seq<Key>, rest: seq<Key>, w: Walk, after: Walk)
    requires Rooted(g, done, rest, w) && w.ordered <= after.ordered && rest != []
    requires Listed(after.ordered, rest[0]) && forall k | k in rest :: KeyAtMost(rest[0], k)
    requires forall s | s in after.ordered :: s in w.ordered || Reaches(g, rest[0], s.key)
    ensures Rooted(g, done + [rest[0]], rest[1..], after)
  {
    hide KeyAtMost, Reaches, Listed;
    assert forall k :: k in done + [rest[0]] <==> k in done || k == rest[0];
    assert forall k :: k in rest <==> k == rest[0] || k in rest[1..];
    forall k | k in done ensures Listed(after.ordered, k) {
      StillListed(w.ordered, after.ordered, k);
    }
  }

  lemma RootVisited(g: Graph, done: seq<Key>, rest: seq<Key>, w: Walk)
    requires WalkOk(g, [], w) && Rooted(g, done, rest, w) && TiesByKey(g, w.ordered)
    requires rest != [] && (forall k | k in rest :: k in g && KeyAtMost(rest[0], k))
    requires Visit(g, rest[0], [], w).Success?
    ensures var after := Visit(g, rest[0], [], w).value;
            WalkOk(g, [], after) && Rooted(g, done + [rest[0]], rest[1..], after) && TiesByKey(g, after.ordered)
  {
    hide Visit, KeyAtMost, Reaches, TiesByKey, Listed, Path;
    var root, after := rest[0], Visit(g, rest[0], [], w).value;
    VisitOk(g, root, [], w);
    VisitReaches(g, root, [], w);
    RootedOn(g, done, rest, w, after);
    forall j | |w.ordered| <= j < |after.ordered| ensures KeyAtMost(root, after.ordered[j].key) {
      NewKey(g, w.ordered, after.ordered, done, j);
    }
    TiesExtend(g, done, root, w.ordered, after.ordered);
  }

  lemma {:induction false} RootsKeepTies(g: Graph, done: seq<Key>, rest: seq<Key>, w: Walk)
    requires WalkOk(g, [], w) && Rooted(g, done, rest, w) && TiesByKey(g, w.ordered)
    requires (forall k | k in rest :: k in g) && forall i, j | 0 <= i < j < |rest| :: KeyAtMost(rest[i], rest[j])
    ensures var r := VisitAll(g, rest, [], w);
            r.Success? ==> TiesByKey(g, r.value.ordered)
    decreases |rest|
  {
    hide WalkOk, Rooted, TiesByKey, Visit;
    if rest != [] && Visit(g, rest[0], [], w).Success? {
      forall k | k in rest ensures KeyAtMost(rest[0], k) {
        AtMostItself(rest[0]);
      }
      RootVisited(g, done, rest, w);
      RootsKeepTies(g, done + [rest[0]], rest[1..], Visit(g, rest[0], [], w).value);
    }
  }

  lemma AtMostItself(k: Key)
    ensures KeyAtMost(k, k)
  {
  }

  /** Ties go by key: a feature listed before one of a smaller key is there because a feature of a key no greater than that one
      consumes it, itself or through others. */
  lemma TiesBrokenByKey(g: Graph, i: nat, j: nat)
    requires Keyed(g) && Order(g).Success? && i < j < |Order(g).value|
    requires !KeyAtMost(Order(g).value[i].key, Order(g).value[j].key)
    ensures exists m :: m != Order(g).value[i].key && KeyAtMost(m, Order(g).value[j].key)
                        && Reaches(g, m, Order(g).value[i].key)
  {
    hide VisitAll, KeyAtMost, Reaches;
    SortedKeysIncrease(g.Keys);
    assert WalkOk(g, [], START) && Rooted(g, [], SortedKeys(g.Keys), START);
    RootsKeepTies(g, [], SortedKeys(g.Keys), START);
  }

  lemma {:induction false} ByKeyKeyed(specs: seq<FeatureSpec>)
    ensures Keyed(ByKey(specs))
    ensures forall k :: k in ByKey(specs) <==> Listed(specs, k)
    ensures forall k | k in ByKey(specs) :: ByKey(specs)[k] in specs
  {
    if specs != [] {
      var before, last := specs[..|specs| - 1], specs[|specs| - 1];
      ByKeyKeyed(before);
      assert specs == before + [last];
      forall k ensures k in ByKey(specs) <==> Listed(specs, k) {
        ListedAppend(before, last, k);
      }
    }
  }

  /** One spec per key, as a registry guarantees. */
  ghost predicate UniqueKeys(specs: seq<FeatureSpec>) {
    forall s, t | s in specs && t in specs && s.key == t.key :: s == t
  }

  ghost predicate SameSpecs(specs: seq<FeatureSpec>, other: seq<FeatureSpec>) {
    forall s :: s in specs <==> s in other
  }

  /** The order depends on the set of specs only, not on how they were listed. */
  lemma OrderIgnoresListing(specs: seq<FeatureSpec>, other: seq<FeatureSpec>)
    requires UniqueKeys(specs) && SameSpecs(specs, other)
    ensures Order(ByKey(specs)) == Order(ByKey(other))
  {
    hide Order, ByKey;
    ByKeyKeyed(specs);
    ByKeyKeyed(other);
    forall k ensures k in ByKey(specs) <==> k in ByKey(other) {
      if Listed(specs, k) { var s :| s in specs && s.key == k; assert s in other; }
      if Listed(other, k) { var s :| s in other && s.key == k; assert s in specs; }
    }
    assert ByKey(specs) == ByKey(other);
  }

  /** Listed once more at the end, a spec is the chosen one of its key. */
  lemma ListedLastIsChosen(specs: seq<FeatureSpec>, s: FeatureSpec)
    requires s in specs
    ensures ByKey(specs + [s])[s.key := s] == ByKey(specs + [s]) && SameSpecs(specs, specs + [s])
  {
    assert (specs + [s])[..|specs|] == specs;
  }

  /** The chosen specs can be read off an order. */
  lemma OrderNamesChosen(g: Graph, k: Key)
    requires Keyed(g) && k in g && Order(g).Success?
    ensures exists s | s in Order(g).value :: s.key == k && s == g[k]
    ensures forall s | s in Order(g).value && s.key == k :: s == g[k]
  {
    hide Order;
    OrderIffAcyclic(g);
  }

  /** Where there is an order, it is every listing's order exactly if the keys are unique: of two specs with one key
      the later is chosen, so listing the other once more at the end changes the order, or leaves none. */
  lemma OrderIgnoresListingIffUnique(specs: seq<FeatureSpec>)
    requires Order(ByKey(specs)).Success?
    ensures (forall other | SameSpecs(specs, other) :: Order(ByKey(other)) == Order(ByKey(specs)))
              <==> UniqueKeys(specs)
  {
    hide Order, ByKey;
    if UniqueKeys(specs) {
      forall other | SameSpecs(specs, other) ensures Order(ByKey(other)) == Order(ByKey(specs)) {
        OrderIgnoresListing(specs, other);
      }
    } else {
      var s, t :| s in specs && t in specs && s.key == t.key && s != t;
      ByKeyKeyed(specs);
      assert Listed(specs, s.key);
      var passed := if ByKey(specs)[s.key] == s then t else s;
      var other := specs + [passed];
      ByKeyKeyed(other);
      ListedLastIsChosen(specs, passed);
      OrderNamesChosen(ByKey(specs), s.key);
      if Order(ByKey(other)).Success? {
        OrderNamesChosen(ByKey(other), s.key);
      }
    }
  }

  // ------------------------------------------------------------------- the sort

  class Sorter {
    const byKey: Graph
    var ordered: seq<FeatureSpec>
    var state: map<Key, Mark>

    ghost function Walked(): Walk
      reads this
    {
      Walk(state, ordered)
    }

    constructor (byKey: Graph)
      ensures this.byKey == byKey && Walked() == START
    {
      this.byKey := byKey;
      ordered := [];
      state := map[];
    }

    /** Visit `key`; the path to a feature in progress, if one is met. */
    method VisitKey(key: Key, trail: seq<Key>) returns (cycle: Option<seq<Key>>)
      requires key in byKey
      modifies this
      ensures match Visit(byKey, key, trail, old(Walked()))
              case Success(after) => cycle == None && Walked() == after
              case Failure(path) => cycle == Some(path)
      decreases Unmarked(byKey, Walked())
    {
      if key in state {
        if state[key].Done? {
          return None;
        }
        return Some(trail + [key]);
      }
      MarkShrinks(byKey, Walked(), key, InProgress);
      state := state[key := InProgress];
      ghost var marked := Walked();
      var keys := SortedKeys(Dependencies(byKey, key));
      for i := 0 to |keys|
        invariant forall k | k in keys[i..] :: k in byKey
        invariant VisitAll(byKey, keys, trail + [key], marked) == VisitAll(byKey, keys[i..], trail + [key], Walked())
        invariant Unmarked(byKey, Walked()) <= Unmarked(byKey, marked)
      {
        ghost var before := Walked();
        assert keys[i] in keys && keys[i..][1..] == keys[i + 1..];
        cycle := VisitKey(keys[i], trail + [key]);
        if cycle.Some? {
          return;
        }
        MarksShrink(byKey, before, Walked());
      }
      ordered := ordered + [byKey[key]];
      state := state[key := Done];
      return None;
    }
  }

  lemma VisitNext(g: Graph, keys: seq<Key>, i: nat, w: Walk)
    requires i < |keys| && forall k | k in keys :: k in g
    ensures var r := Visit(g, keys[i], [], w);
            VisitAll(g, keys[i..], [], w) == if r.Failure? then r else VisitAll(g, keys[i + 1..], [], r.value)
  {
    hide Visit;
    assert keys[i..][0] == keys[i] && keys[i..][1..] == keys[i + 1..];
  }

  method TopologicalOrder(specs: seq<FeatureSpec>) returns (r: Result<seq<FeatureSpec>, seq<Key>>)
    ensures r == Order(ByKey(specs))
  {
    hide Visit, ByKey;
    var sorter := new Sorter(ByKey(specs));
    var keys := SortedKeys(sorter.byKey.Keys);
    for i := 0 to |keys|
      invariant VisitAll(sorter.byKey, keys, [], START) == VisitAll(sorter.byKey, keys[i..], [], sorter.Walked())
    {
      VisitNext(sorter.byKey, keys, i, sorter.Walked());
      var cycle := sorter.VisitKey(keys[i], []);
      if cycle.Some? {
        return Failure(cycle.value);
      }
    }
    return Success(sorter.ordered);
  }
}
