// The migration-chain check: revision files must form one unbroken path from a
// single root to a single head. A revision names the one it depends on; the check
// keeps the first of each id, counts roots and heads, and walks from the root.

module RevisionChain {
  import opened Wrappers

  datatype Revision = Revision(id: string, down: Option<string>, file: string)

  /** The names a problem lists are a set; the original prints them sorted. */
  datatype Problem =
    | NoRevisions
    | DuplicateId(id: string, first: string, second: string)
    | MissingDown(file: string, down: string)
    | RootCount(names: set<string>)
    | HeadCount(names: set<string>)
    | CycleAt(id: string)
    | BranchAfter(id: string, names: set<string>)
    | Detached(reached: nat, total: nat)

  function Ids(revisions: seq<Revision>): set<string> {
    set r | r in revisions :: r.id
  }

  function Filter(revisions: seq<Revision>, wanted: Revision -> bool): seq<Revision> {
    if revisions == [] then [] else
      var last := revisions[|revisions| - 1];
      Filter(revisions[..|revisions| - 1], wanted) + if wanted(last) then [last] else []
  }

  function WithId(id: string): Revision -> bool {
    (r: Revision) => r.id == id
  }

  function WithDown(down: Option<string>): Revision -> bool {
    (r: Revision) => r.down == down
  }

  function NotAmong(ids: set<string>): Revision -> bool {
    (r: Revision) => r.id !in ids
  }

  /** The first revision of each id, in order. */
  function Kept(revisions: seq<Revision>): seq<Revision> {
    if revisions == [] then [] else
      var before, last := Kept(revisions[..|revisions| - 1]), revisions[|revisions| - 1];
      if last.id in Ids(before) then before else before + [last]
  }

  function Duplicates(revisions: seq<Revision>): seq<Problem> {
    if revisions == [] then [] else
      var before, last := revisions[..|revisions| - 1], revisions[|revisions| - 1];
      var same := Filter(Kept(before), WithId(last.id));
      Duplicates(before) + if same == [] then [] else [DuplicateId(last.id, same[0].file, last.file)]
  }

  function Missing(revisions: seq<Revision>, ids: set<string>): seq<Problem> {
    if revisions == [] then [] else
      var last := revisions[|revisions| - 1];
      Missing(revisions[..|revisions| - 1], ids)
        + if last.down.Some? && last.down.value !in ids then [MissingDown(last.file, last.down.value)] else []
  }

  /** The ids some revision depends on; an empty one is left out. */
  function DependedOn(revisions: seq<Revision>): set<string> {
    set r | r in revisions && r.down.Some? && r.down.value != "" :: r.down.value
  }

  function Children(kept: seq<Revision>, id: string): seq<Revision> {
    Filter(kept, WithDown(Some(id)))
  }

  /** Follow the chain from `cursor`, after `ordered`; what ends the walk early is a problem. */
  function Walk(kept: seq<Revision>, cursor: Revision, ordered: seq<Revision>): (seq<Revision>, seq<Problem>)
    requires cursor in kept
    decreases Ids(kept) - Ids(ordered)
  {
    if cursor.id in Ids(ordered) then (ordered, [CycleAt(cursor.id)]) else
      var next, longer := Children(kept, cursor.id), ordered + [cursor];
      if |next| > 1 then (longer, [BranchAfter(cursor.id, Ids(next))])
      else if next == [] then (longer, [])
      else
        FilterMembers(kept, WithDown(Some(cursor.id)));
        assert next[0] in next;
        assert cursor.id in Ids(longer) && cursor.id in Ids(kept) && Ids(ordered) <= Ids(longer);
        Walk(kept, next[0], longer)
  }

  /** The problems found before the walk. */
  function Faults(revisions: seq<Revision>): seq<Problem> {
    var kept := Kept(revisions);
    var roots, heads := Filter(kept, WithDown(None)), Filter(kept, NotAmong(DependedOn(kept)));
    Duplicates(revisions)
      + Missing(kept, Ids(kept))
      + (if |roots| != 1 then [RootCount(Ids(roots))] else [])
      + (if |heads| != 1 then [HeadCount(Ids(heads))] else [])
  }

  function BuildChain(revisions: seq<Revision>): (seq<Revision>, seq<Problem>) {
    if revisions == [] then ([], [NoRevisions]) else
      var kept, faults := Kept(revisions), Faults(revisions);
      var roots := Filter(kept, WithDown(None));
      if |roots| != 1 then ([], faults) else
        FilterMembers(kept, WithDown(None));
        assert roots[0] in roots;
        var (ordered, stops) := Walk(kept, roots[0], []);
        (ordered, faults + stops
                    + if |ordered| != |kept| && faults + stops == [] then [Detached(|ordered|, |kept|)] else [])
  }

  // ------------------------------------------------------------------ filtering

  lemma {:induction false} FilterMembers(revisions: seq<Revision>, wanted: Revision -> bool)
    ensures forall r :: r in Filter(revisions, wanted) <==> r in revisions && wanted(r)
  {
    if revisions != [] {
      FilterMembers(revisions[..|revisions| - 1], wanted);
      assert revisions == revisions[..|revisions| - 1] + [revisions[|revisions| - 1]];
    }
  }

  /** No two revisions share an id. */
  ghost predicate Apart(revisions: seq<Revision>) {
    forall i, j | 0 <= i < j < |revisions| :: revisions[i].id != revisions[j].id
  }

  lemma ApartIsUnique(revisions: seq<Revision>, a: Revision, b: Revision)
    ensures Apart(revisions) && a in revisions && b in revisions && a.id == b.id ==> a == b
  {
  }

  lemma NothingWanted(revisions: seq<Revision>, wanted: Revision -> bool)
    ensures (forall r | r in revisions :: !wanted(r)) ==> Filter(revisions, wanted) == []
  {
  }

  /** If just one is wanted, the filter is that one. */
  lemma {:induction false} FilterOne(revisions: seq<Revision>, wanted: Revision -> bool, x: Revision)
    requires Apart(revisions) && x in revisions && wanted(x)
    requires forall r | r in revisions && wanted(r) :: r == x
    ensures Filter(revisions, wanted) == [x]
  {
    var before, last := revisions[..|revisions| - 1], revisions[|revisions| - 1];
    assert revisions == before + [last];
    if last == x {
      forall r | r in before ensures !wanted(r) {
        var i :| 0 <= i < |before| && before[i] == r;
        assert revisions[i].id != last.id;
      }
      NothingWanted(before, wanted);
    } else {
      FilterOne(before, wanted, x);
    }
  }

  /** If two are wanted, the filter is not one. */
  lemma FilterTwo(revisions: seq<Revision>, wanted: Revision -> bool, x: Revision, y: Revision)
    requires x in revisions && y in revisions && wanted(x) && wanted(y) && x != y
    ensures |Filter(revisions, wanted)| != 1
  {
    FilterMembers(revisions, wanted);
    var found := Filter(revisions, wanted);
    assert x in found && y in found;
  }

  lemma {:induction false} KeptApart(revisions: seq<Revision>)
    ensures Apart(Kept(revisions))
    ensures forall r | r in Kept(revisions) :: r in revisions
    ensures revisions != [] ==> Kept(revisions) != []
  {
    if revisions != [] {
      var before := revisions[..|revisions| - 1];
      KeptApart(before);
      assert revisions == before + [revisions[|revisions| - 1]];
    }
  }

  lemma ApartLast(before: seq<Revision>, last: Revision)
    ensures Apart(before + [last]) <==> Apart(before) && last.id !in Ids(before)
  {
    var all := before + [last];
    if Apart(all) {
      forall r | r in before ensures r.id != last.id {
        var i :| 0 <= i < |before| && before[i] == r;
        assert all[i].id != all[|before|].id;
      }
      forall i, j | 0 <= i < j < |before| ensures before[i].id != before[j].id {
        assert all[i] == before[i] && all[j] == before[j];
      }
    }
    if Apart(before) && last.id !in Ids(before) {
      forall i, j | 0 <= i < j < |all| ensures all[i].id != all[j].id {
        assert all[i] == before[i] && before[i] in before;
        if j < |before| { assert all[j] == before[j]; }
      }
    }
  }

  lemma SameIdFound(kept: seq<Revision>, id: string)
    ensures Filter(kept, WithId(id)) == [] <==> id !in Ids(kept)
  {
  }

  /** No duplicate is reported exactly if there is none, and then all are kept. */
  lemma {:induction false} NoDuplicatesIffApart(revisions: seq<Revision>)
    ensures Duplicates(revisions) == [] <==> Apart(revisions)
    ensures Apart(revisions) ==> Kept(revisions) == revisions
  {
    hide Apart, Ids, Filter;
    if revisions == [] {
      ApartNone();
    } else {
      var before, last := revisions[..|revisions| - 1], revisions[|revisions| - 1];
      NoDuplicatesIffApart(before);
      SameIdFound(Kept(before), last.id);
      assert revisions == before + [last];
      ApartLast(before, last);
    }
  }

  lemma ApartNone()
    ensures Apart([])
  {
  }

  lemma {:induction false} NoneMissingIff(revisions: seq<Revision>, ids: set<string>)
    ensures Missing(revisions, ids) == [] <==> forall r | r in revisions && r.down.Some? :: r.down.value in ids
  {
    if revisions != [] {
      var before, last := revisions[..|revisions| - 1], revisions[|revisions| - 1];
      NoneMissingIff(before, ids);
      assert revisions == before + [last] && last in revisions;
    }
  }

  // ------------------------------------------------------------------- the path

  /** Each revision depends on the one before it, the first on none, and no two share an id. */
  ghost predicate IsPath(p: seq<Revision>) {
    && (p != [] ==> p[0].down == None)
    && (forall i | 0 < i < |p| :: p[i].down == Some(p[i - 1].id))
    && Apart(p)
  }

  /** Where a walk stands: on a path, at what depends on its end. */
  ghost predicate OnPath(kept: seq<Revision>, cursor: Revision, ordered: seq<Revision>) {
    && Apart(kept) && cursor in kept && (forall r | r in ordered :: r in kept)
    && IsPath(ordered)
    && cursor.down == if ordered == [] then None else Some(ordered[|ordered| - 1].id)
  }

  /** From a root, the walk never comes back to where it has been. */
  lemma NeverBack(kept: seq<Revision>, cursor: Revision, ordered: seq<Revision>)
    requires OnPath(kept, cursor, ordered)
    ensures cursor.id !in Ids(ordered)
    ensures IsPath(ordered + [cursor])
  {
    forall i | 0 <= i < |ordered| ensures ordered[i].id != cursor.id {
      assert ordered[i] in ordered;
      assert i > 0 ==> ordered[i].down == Some(ordered[i - 1].id) && ordered[i - 1].id != ordered[|ordered| - 1].id;
      if ordered[i].id == cursor.id {
        ApartIsUnique(kept, ordered[i], cursor);
      }
    }
  }

  /** A walk from a root returns a path within what was kept, and reports a branch or nothing. */
  lemma {:induction false} WalkIsPath(kept: seq<Revision>, cursor: Revision, ordered: seq<Revision>)
    requires OnPath(kept, cursor, ordered)
    ensures var (path, stops) := Walk(kept, cursor, ordered);
            && path != [] && IsPath(path) && (forall r | r in path :: r in kept)
            && (forall s | s in stops :: s.BranchAfter?)
    decreases Ids(kept) - Ids(ordered)
  {
    NeverBack(kept, cursor, ordered);
    var next, longer := Children(kept, cursor.id), ordered + [cursor];
    if |next| == 1 {
      FilterMembers(kept, WithDown(Some(cursor.id)));
      assert next[0] in next;
      assert cursor.id in Ids(longer) && cursor.id in Ids(kept) && Ids(ordered) <= Ids(longer) by {
        assert longer[|ordered|] == cursor;
      }
      WalkIsPath(kept, next[0], longer);
    }
  }

  /** It ends where not just one revision depends on the last, and reports a branch there if several do. */
  lemma {:induction false} WalkStops(kept: seq<Revision>, cursor: Revision, ordered: seq<Revision>)
    requires OnPath(kept, cursor, ordered)
    ensures var (path, stops) := Walk(kept, cursor, ordered);
            && ordered + [cursor] <= path
            && var next := Children(kept, path[|path| - 1].id);
               |next| != 1 && stops == if |next| > 1 then [BranchAfter(path[|path| - 1].id, Ids(next))] else []
    decreases Ids(kept) - Ids(ordered)
  {
    NeverBack(kept, cursor, ordered);
    var next, longer := Children(kept, cursor.id), ordered + [cursor];
    if |next| == 1 {
      OnTheNext(kept, cursor, ordered);
      hide Filter, OnPath;
      WalkStops(kept, next[0], longer);
    }
  }

  lemma OnTheNext(kept: seq<Revision>, cursor: Revision, ordered: seq<Revision>)
    requires OnPath(kept, cursor, ordered) && |Children(kept, cursor.id)| == 1
    ensures var next, longer := Children(kept, cursor.id), ordered + [cursor];
            OnPath(kept, next[0], longer) && Ids(kept) - Ids(longer) < Ids(kept) - Ids(ordered)
  {
    hide IsPath;
    NeverBack(kept, cursor, ordered);
    FilterMembers(kept, WithDown(Some(cursor.id)));
    var longer := ordered + [cursor];
    assert Children(kept, cursor.id)[0] in Children(kept, cursor.id);
    assert cursor.id in Ids(longer) && cursor.id in Ids(kept) && Ids(ordered) <= Ids(longer) by {
      assert longer[|ordered|] == cursor;
    }
  }

  /** Whatever the files say, the chain returned is a path, and no cycle is ever reported. */
  lemma CycleIsUnreachable(revisions: seq<Revision>)
    ensures var (ordered, problems) := BuildChain(revisions);
            IsPath(ordered) && (forall r | r in ordered :: r in revisions) && forall p | p in problems :: !p.CycleAt?
  {
    hide Walk;
    KeptApart(revisions);
    var kept := Kept(revisions);
    var roots := Filter(kept, WithDown(None));
    FaultsAreNoCycles(revisions);
    if revisions != [] && |roots| == 1 {
      FilterMembers(kept, WithDown(None));
      assert roots[0] in roots;
      WalkIsPath(kept, roots[0], []);
    }
  }

  lemma FaultsAreNoCycles(revisions: seq<Revision>)
    ensures forall p | p in Faults(revisions) :: !p.CycleAt?
  {
    hide Kept;
    DuplicatesAreNoCycles(revisions);
    MissingAreNoCycles(Kept(revisions), Ids(Kept(revisions)));
  }

  lemma {:induction false} DuplicatesAreNoCycles(revisions: seq<Revision>)
    ensures forall p | p in Duplicates(revisions) :: p.DuplicateId?
  {
    if revisions != [] {
      DuplicatesAreNoCycles(revisions[..|revisions| - 1]);
    }
  }

  lemma {:induction false} MissingAreNoCycles(revisions: seq<Revision>, ids: set<string>)
    ensures forall p | p in Missing(revisions, ids) :: p.MissingDown?
  {
    if revisions != [] {
      MissingAreNoCycles(revisions[..|revisions| - 1], ids);
    }
  }

  // ------------------------------------------------------------------ soundness

  /** The path uses every revision, once. */
  ghost predicate Covers(p: seq<Revision>, revisions: seq<Revision>) {
    multiset(p) == multiset(revisions)
  }

  /** Only the last revision may have an empty id. */
  ghost predicate Named(p: seq<Revision>) {
    forall i | 0 <= i < |p| - 1 :: p[i].id != ""
  }

  lemma {:induction false} ApartOnce(p: seq<Revision>)
    requires Apart(p)
    ensures forall r :: multiset(p)[r] <= 1
  {
    if p != [] {
      var before, last := p[..|p| - 1], p[|p| - 1];
      assert p == before + [last];
      ApartOnce(before);
      assert last !in before by {
        forall i | 0 <= i < |before| ensures before[i] != last {
          assert p[i].id != p[|p| - 1].id;
        }
      }
      assert multiset(p) == multiset(before) + multiset{last};
    }
  }

  lemma ApartIsSet(p: seq<Revision>)
    requires Apart(p)
    ensures multiset(p) == multiset(set r | r in p)
    ensures |set r | r in p| == |p|
    ensures forall r :: multiset(p)[r] <= 1
  {
    hide Apart;
    ApartOnce(p);
    var s := set r | r in p;
    forall r ensures multiset(s)[r] == multiset(p)[r] {
      assert r in multiset(p) <==> r in p;
    }
    assert multiset(s) == multiset(p);
  }

  /** As many of them as there are means all of them. */
  lemma FullPathCovers(p: seq<Revision>, kept: seq<Revision>)
    requires Apart(p) && Apart(kept) && |p| == |kept| && forall r | r in p :: r in kept
    ensures Covers(p, kept)
  {
    ApartIsSet(p);
    ApartIsSet(kept);
    var a, b := set r | r in p, set r | r in kept;
    assert a <= b;
    SubsetOfSameSize(a, b);
  }

  lemma SubsetOfSameSize(a: set<Revision>, b: set<Revision>)
    requires a <= b && |a| == |b|
    ensures a == b
  {
    assert b == a + (b - a);
  }

  lemma CoversMembers(p: seq<Revision>, revisions: seq<Revision>)
    requires Covers(p, revisions)
    ensures |p| == |revisions| && forall r :: r in p <==> r in revisions
  {
    assert |multiset(p)| == |multiset(revisions)|;
    forall r ensures r in p <==> r in revisions {
      assert r in p <==> r in multiset(p);
      assert r in revisions <==> r in multiset(revisions);
    }
  }

  /** The end of a full path is a head. */
  lemma EndIsHead(p: seq<Revision>, kept: seq<Revision>)
    requires IsPath(p) && p != [] && Covers(p, kept)
    ensures p[|p| - 1] in kept && p[|p| - 1].id !in DependedOn(kept)
  {
    CoversMembers(p, kept);
    var n := |p| - 1;
    assert p[n] in p;
    forall r | r in kept ensures r.down != Some(p[n].id) {
      assert r in p;
      var i :| 0 <= i < |p| && p[i] == r;
      assert i > 0 ==> p[i].down == Some(p[i - 1].id) && p[i - 1].id != p[n].id;
    }
  }

  /** An unnamed revision is never depended on, so one in the middle makes a second head. */
  lemma OneHeadIsNamed(p: seq<Revision>, kept: seq<Revision>)
    requires IsPath(p) && p != [] && Covers(p, kept)
    requires |Filter(kept, NotAmong(DependedOn(kept)))| == 1
    ensures Named(p)
  {
    CoversMembers(p, kept);
    var n := |p| - 1;
    EndIsHead(p, kept);
    forall i | 0 <= i < n ensures p[i].id != "" {
      if p[i].id == "" {
        assert p[i] in p && p[i].id !in DependedOn(kept);
        assert p[i].id != p[n].id;
        FilterTwo(kept, NotAmong(DependedOn(kept)), p[i], p[n]);
      }
    }
  }

  lemma NoProblemsMeansPath(revisions: seq<Revision>)
    requires BuildChain(revisions).1 == []
    ensures var p := BuildChain(revisions).0;
            p != [] && IsPath(p) && Covers(p, revisions) && Named(p)
  {
    hide Walk, Filter, Duplicates, Missing, Kept;
    var kept := Kept(revisions);
    NoDuplicatesIffApart(revisions);
    assert Faults(revisions) == [];
    assert Duplicates(revisions) == [];
    var roots := Filter(kept, WithDown(None));
    FilterMembers(kept, WithDown(None));
    assert roots[0] in roots;
    WalkIsPath(kept, roots[0], []);
    var p := BuildChain(revisions).0;
    FullPathCovers(p, kept);
    OneHeadIsNamed(p, kept);
  }

  // --------------------------------------------------------------- completeness

  lemma CoverIsApart(p: seq<Revision>, revisions: seq<Revision>)
    requires Apart(p) && Covers(p, revisions)
    ensures Apart(revisions)
  {
    ApartIsSet(p);
    CoversMembers(p, revisions);
    forall i, j | 0 <= i < j < |revisions| ensures revisions[i].id != revisions[j].id {
      OnceEach(revisions, i, j);
      assert revisions[i] in p && revisions[j] in p;
      if revisions[i].id == revisions[j].id {
        ApartIsUnique(p, revisions[i], revisions[j]);
      }
    }
  }

  lemma OnceEach(revisions: seq<Revision>, i: nat, j: nat)
    requires i < j < |revisions| && forall r :: multiset(revisions)[r] <= 1
    ensures revisions[i] != revisions[j]
  {
    assert revisions == revisions[..j] + [revisions[j]] + revisions[j + 1..];
    var before, x := revisions[..j], revisions[j];
    assert multiset(revisions)[x] >= multiset(before)[x] + 1;
    assert before[i] in before && (x in before ==> multiset(before)[x] >= 1);
  }

  /** On a full path, what depends on a revision is the next one alone. */
  lemma ChildrenOnPath(p: seq<Revision>, kept: seq<Revision>, i: nat)
    requires IsPath(p) && Covers(p, kept) && i < |p|
    ensures Children(kept, p[i].id) == if i + 1 < |p| then [p[i + 1]] else []
  {
    CoversMembers(p, kept);
    CoverIsApart(p, kept);
    var wanted := WithDown(Some(p[i].id));
    forall r | r in kept ensures wanted(r) ==> i + 1 < |p| && r == p[i + 1] {
      assert r in p;
      var j :| 0 <= j < |p| && p[j] == r;
      assert j > 0 ==> p[j].down == Some(p[j - 1].id);
      assert j > 0 && j - 1 != i ==> p[j - 1].id != p[i].id;
    }
    if i + 1 < |p| {
      assert p[i + 1] in p;
      FilterOne(kept, wanted, p[i + 1]);
    } else {
      NothingWanted(kept, wanted);
    }
  }

  /** The walk follows a full path to its end. */
  lemma {:induction false} WalkFollows(p: seq<Revision>, kept: seq<Revision>, i: nat)
    requires IsPath(p) && Covers(p, kept) && i < |p|
    ensures p[i] in kept && Walk(kept, p[i], p[..i]) == (p, [])
    decreases |p| - i
  {
    CoversMembers(p, kept);
    assert p[i] in p;
    assert p[..i] + [p[i]] == p[..i + 1];
    assert p[i].id !in Ids(p[..i]);
    ChildrenOnPath(p, kept, i);
    hide Filter, Children, IsPath, Covers;
    if i + 1 < |p| {
      WalkFollows(p, kept, i + 1);
    } else {
      assert p[..i + 1] == p;
    }
  }

  lemma PathHasOneRootOneHead(p: seq<Revision>, kept: seq<Revision>)
    requires IsPath(p) && p != [] && Covers(p, kept) && Named(p)
    ensures Filter(kept, WithDown(None)) == [p[0]]
    ensures Filter(kept, NotAmong(DependedOn(kept))) == [p[|p| - 1]]
    ensures Missing(kept, Ids(kept)) == []
  {
    var n := |p| - 1;
    CoversMembers(p, kept);
    CoverIsApart(p, kept);
    assert p[0] in p;
    FilterOne(kept, WithDown(None), p[0]) by {
      forall r | r in kept ensures r.down == None ==> r == p[0] {
        assert r in p;
        var i :| 0 <= i < |p| && p[i] == r;
        assert i > 0 ==> p[i].down == Some(p[i - 1].id);
      }
    }
    EndIsHead(p, kept);
    FilterOne(kept, NotAmong(DependedOn(kept)), p[n]) by {
      forall r | r in kept ensures r.id in DependedOn(kept) || r == p[n] {
        assert r in p;
        var i :| 0 <= i < |p| && p[i] == r;
        if i < n {
          assert p[i + 1] in p && p[i + 1].down == Some(r.id) && r.id != "";
        }
      }
    }
    NoneMissingIff(kept, Ids(kept));
    forall r | r in kept && r.down.Some? ensures r.down.value in Ids(kept) {
      assert r in p;
      var i :| 0 <= i < |p| && p[i] == r;
      assert p[i - 1] in p;
    }
  }

  lemma PathMeansNoProblems(revisions: seq<Revision>, p: seq<Revision>)
    requires p != [] && IsPath(p) && Covers(p, revisions) && Named(p)
    ensures BuildChain(revisions) == (p, [])
  {
    hide Walk, Filter, Duplicates, Missing, Kept, DependedOn;
    CoversMembers(p, revisions);
    CoverIsApart(p, revisions);
    NoDuplicatesIffApart(revisions);
    PathHasOneRootOneHead(p, revisions);
    WalkFollows(p, revisions, 0);
    assert p[..0] == [];
    assert Faults(revisions) == [];
  }

  /** The check passes exactly when the revisions form one path from a single root through all of them, with only
      the last possibly unnamed; and it then returns that path. */
  lemma ChainIsValidExactly(revisions: seq<Revision>, p: seq<Revision>)
    ensures BuildChain(revisions) == (p, []) <==> p != [] && IsPath(p) && Covers(p, revisions) && Named(p)
    ensures BuildChain(revisions).1 == [] <==>
              exists q :: q != [] && IsPath(q) && Covers(q, revisions) && Named(q)
  {
    hide BuildChain, IsPath, Covers, Named;
    if BuildChain(revisions).1 == [] {
      NoProblemsMeansPath(revisions);
    }
    if p != [] && IsPath(p) && Covers(p, revisions) && Named(p) {
      PathMeansNoProblems(revisions, p);
    }
    if q :| q != [] && IsPath(q) && Covers(q, revisions) && Named(q) {
      PathMeansNoProblems(revisions, q);
    }
  }

  /** An unnamed root with a child is a path the check refuses, for two heads. */
  lemma UnnamedRootIsRefused(child: Revision)
    requires child.id != "" && child.down == Some("")
    ensures var p := [Revision("", None, ""), child];
            IsPath(p) && BuildChain(p).1 != []
  {
    hide BuildChain;
    var p := [Revision("", None, ""), child];
    if BuildChain(p).1 == [] {
      NoProblemsMeansPath(p);
    }
  }

  // ------------------------------------------------------- what is reported

  /** `r` stands at `i`, and nothing before it has its id. */
  ghost predicate FirstAt(revisions: seq<Revision>, r: Revision, i: nat) {
    i < |revisions| && revisions[i] == r && forall j | 0 <= j < i :: revisions[j].id != r.id
  }

  ghost predicate First(revisions: seq<Revision>, r: Revision) {
    exists i: nat :: FirstAt(revisions, r, i)
  }

  lemma FirstLast(before: seq<Revision>, last: Revision, r: Revision)
    ensures First(before + [last], r) <==> First(before, r) || (r == last && last.id !in Ids(before))
  {
    var all := before + [last];
    if i: nat :| FirstAt(before, r, i) {
      assert FirstAt(all, r, i);
    }
    if i: nat :| FirstAt(all, r, i) {
      if i < |before| {
        assert forall j | 0 <= j < i :: before[j] == all[j];
        assert FirstAt(before, r, i);
      } else {
        forall b | b in before ensures b.id != last.id {
          var j :| 0 <= j < |before| && before[j] == b;
          assert all[j] == b;
        }
      }
    }
    if r == last && last.id !in Ids(before) {
      forall j | 0 <= j < |before| ensures all[j].id != r.id {
        assert before[j] in before;
      }
      assert FirstAt(all, r, |before|);
    }
  }

  lemma {:induction false} KeptAreFirst(revisions: seq<Revision>)
    ensures forall r :: r in Kept(revisions) <==> First(revisions, r)
    ensures Ids(Kept(revisions)) == Ids(revisions)
  {
    hide First;
    if revisions == [] {
      NoneFirst();
    } else {
      var before, last := revisions[..|revisions| - 1], revisions[|revisions| - 1];
      KeptAreFirst(before);
      assert revisions == before + [last];
      OneMoreId(before, last);
      OneMoreId(Kept(before), last);
      forall r ensures r in Kept(revisions) <==> First(revisions, r) {
        FirstLast(before, last, r);
      }
    }
  }

  lemma NoneFirst()
    ensures forall r :: !First([], r)
  {
  }

  /** A revision further on repeats the id of a first one. */
  ghost predicate Repeated(revisions: seq<Revision>, id: string, first: string, second: string) {
    exists r: Revision, s: Revision :: First(revisions, r) && r.file == first && r.id == s.id == id && s.file == second
                   && Repeats(revisions, s)
  }

  ghost predicate Repeats(revisions: seq<Revision>, s: Revision) {
    exists j :: 0 <= j < |revisions| && revisions[j] == s && s.id in Ids(revisions[..j])
  }

  lemma RepeatsLast(before: seq<Revision>, last: Revision, s: Revision)
    ensures Repeats(before + [last], s) <==> Repeats(before, s) || (s == last && last.id in Ids(before))
  {
    var all := before + [last];
    assert all[..|before|] == before;
    forall j | 0 <= j < |before| ensures all[..j] == before[..j] {
    }
    if j :| 0 <= j < |before| && before[j] == s && s.id in Ids(before[..j]) {
      assert all[j] == s && all[..j] == before[..j];
    }
    if j :| 0 <= j < |all| && all[j] == s && s.id in Ids(all[..j]) {
      if j < |before| {
        assert before[j] == s && all[..j] == before[..j];
      }
    }
    if s == last && last.id in Ids(before) {
      assert all[|before|] == s;
    }
  }

  lemma {:induction false} DuplicatesAre(revisions: seq<Revision>, id: string, first: string, second: string)
    ensures DuplicateId(id, first, second) in Duplicates(revisions) <==> Repeated(revisions, id, first, second)
  {
    hide Filter, First, Repeats, Kept;
    if revisions == [] {
      NoneFirst();
    } else {
      var before, last := revisions[..|revisions| - 1], revisions[|revisions| - 1];
      DuplicatesAre(before, id, first, second);
      assert revisions == before + [last];
      KeptAreFirst(before);
      KeptApart(before);
      SameIdFound(Kept(before), last.id);
      forall r: Revision
        ensures First(revisions, r) <==> First(before, r) || (r == last && last.id !in Ids(before))
        ensures Repeats(revisions, r) <==> Repeats(before, r) || (r == last && last.id in Ids(before))
        ensures First(before, r) && r.id == last.id ==> Filter(Kept(before), WithId(last.id)) == [r]
        ensures Repeats(before, r) ==> r.id in Ids(before)
      {
        FirstLast(before, last, r);
        RepeatsLast(before, last, r);
        RepeatsAmong(before, r);
        if First(before, r) && r.id == last.id {
          SameIdIs(Kept(before), r);
        }
      }
    }
  }

  lemma RepeatsAmong(revisions: seq<Revision>, s: Revision)
    ensures Repeats(revisions, s) ==> s.id in Ids(revisions)
  {
  }

  lemma {:induction false} MissingAre(revisions: seq<Revision>, ids: set<string>, file: string, down: string)
    ensures MissingDown(file, down) in Missing(revisions, ids) <==>
              down !in ids && exists r :: r in revisions && r.file == file && r.down == Some(down)
  {
    if revisions != [] {
      var before, last := revisions[..|revisions| - 1], revisions[|revisions| - 1];
      MissingAre(before, ids, file, down);
      assert revisions == before + [last] && last in revisions;
    }
  }

  lemma {:induction false} FilterApart(revisions: seq<Revision>, wanted: Revision -> bool)
    requires Apart(revisions)
    ensures Apart(Filter(revisions, wanted))
    ensures |Ids(Filter(revisions, wanted))| == |Filter(revisions, wanted)|
  {
    hide Apart, Ids;
    if revisions == [] {
      NoIds();
    } else {
      var before, last := revisions[..|revisions| - 1], revisions[|revisions| - 1];
      assert revisions == before + [last];
      ApartLast(before, last);
      FilterApart(before, wanted);
      if wanted(last) {
        FilterMembers(before, wanted);
        FewerIds(before, Filter(before, wanted));
        ApartLast(Filter(before, wanted), last);
        OneMoreId(Filter(before, wanted), last);
      } else {
        assert Filter(revisions, wanted) == Filter(before, wanted);
      }
    }
  }

  lemma NoIds()
    ensures Apart([]) && Ids([]) == {}
  {
  }

  lemma FewerIds(revisions: seq<Revision>, some: seq<Revision>)
    ensures (forall r | r in some :: r in revisions) ==> Ids(some) <= Ids(revisions)
  {
  }

  lemma OneMoreId(before: seq<Revision>, last: Revision)
    ensures Ids(before + [last]) == Ids(before) + {last.id}
    ensures last.id !in Ids(before) ==> |Ids(before + [last])| == |Ids(before)| + 1
  {
    assert Ids(before + [last]) == Ids(before) + {last.id};
  }

  /** The ids of the first revisions that depend on none. */
  ghost function RootIds(revisions: seq<Revision>): set<string> {
    set r | r in revisions && First(revisions, r) && r.down == None :: r.id
  }

  /** The ids of the first revisions on which none of them depends; an empty id cannot be depended on. */
  ghost function HeadIds(revisions: seq<Revision>): set<string> {
    set r | r in revisions && First(revisions, r) && (r.id == "" || !DependedUpon(revisions, r.id)) :: r.id
  }

  ghost predicate DependedUpon(revisions: seq<Revision>, id: string) {
    exists s :: First(revisions, s) && s.down == Some(id)
  }

  lemma RootsAre(revisions: seq<Revision>)
    ensures Ids(Filter(Kept(revisions), WithDown(None))) == RootIds(revisions)
    ensures |Filter(Kept(revisions), WithDown(None))| == |RootIds(revisions)|
  {
    hide First, Filter, Kept;
    KeptAreFirst(revisions);
    KeptApart(revisions);
    FilterMembers(Kept(revisions), WithDown(None));
    FilterApart(Kept(revisions), WithDown(None));
  }

  lemma HeadsAre(revisions: seq<Revision>)
    ensures var kept := Kept(revisions);
            var heads := Filter(kept, NotAmong(DependedOn(kept)));
            Ids(heads) == HeadIds(revisions) && |heads| == |HeadIds(revisions)|
  {
    hide First, Filter, Kept;
    var kept := Kept(revisions);
    KeptAreFirst(revisions);
    KeptApart(revisions);
    FilterMembers(kept, NotAmong(DependedOn(kept)));
    FilterApart(kept, NotAmong(DependedOn(kept)));
    forall id ensures id in DependedOn(kept) <==> id != "" && DependedUpon(revisions, id) {
    }
  }

  lemma StopsAreBranches(revisions: seq<Revision>)
    ensures var problems := BuildChain(revisions).1;
            revisions != [] ==>
              Faults(revisions) <= problems
              && forall p | p in problems && p !in Faults(revisions) :: p.BranchAfter? || p.Detached?
  {
    hide Walk, Filter, Faults, Kept;
    if revisions != [] {
      var kept := Kept(revisions);
      var roots := Filter(kept, WithDown(None));
      KeptApart(revisions);
      if |roots| == 1 {
        FilterMembers(kept, WithDown(None));
        assert roots[0] in roots;
        WalkIsPath(kept, roots[0], []);
      }
    }
  }

  lemma FaultsAre(revisions: seq<Revision>, p: Problem)
    ensures var kept := Kept(revisions);
            var roots, heads := Filter(kept, WithDown(None)), Filter(kept, NotAmong(DependedOn(kept)));
            p in Faults(revisions) <==>
              || p in Duplicates(revisions) || p in Missing(kept, Ids(kept))
              || (p == RootCount(Ids(roots)) && |roots| != 1) || (p == HeadCount(Ids(heads)) && |heads| != 1)
  {
    hide Kept, Filter, Duplicates, Missing;
  }

  /** What is reported, and with what: each repetition of an id with the file that had it first, each first revision that
      depends on an unknown one, the roots unless there is one, and the heads unless there is one. */
  lemma FaultsExactly(revisions: seq<Revision>, id: string, first: string, second: string, names: set<string>)
    requires revisions != []
    ensures var problems := BuildChain(revisions).1;
            && (DuplicateId(id, first, second) in problems <==> Repeated(revisions, id, first, second))
            && (MissingDown(first, id) in problems <==>
                  id !in Ids(revisions) && exists r :: First(revisions, r) && r.file == first && r.down == Some(id))
            && (RootCount(names) in problems <==> names == RootIds(revisions) && |names| != 1)
            && (HeadCount(names) in problems <==> names == HeadIds(revisions) && |names| != 1)
  {
    hide BuildChain, Faults, Kept, Filter, Duplicates, Missing, First, Repeated, RootIds, HeadIds, Ids;
    StopsAreBranches(revisions);
    KeptAreFirst(revisions);
    RootsAre(revisions);
    HeadsAre(revisions);
    DuplicatesAre(revisions, id, first, second);
    DuplicatesAreNoCycles(revisions);
    MissingAre(Kept(revisions), Ids(revisions), first, id);
    MissingAreNoCycles(Kept(revisions), Ids(revisions));
    FaultsAre(revisions, DuplicateId(id, first, second));
    FaultsAre(revisions, MissingDown(first, id));
    FaultsAre(revisions, RootCount(names));
    FaultsAre(revisions, HeadCount(names));
  }

  /** The ids of the first revisions that depend on this one. */
  ghost function ChildIds(revisions: seq<Revision>, id: string): set<string> {
    set r | r in revisions && First(revisions, r) && r.down == Some(id) :: r.id
  }

  lemma ChildrenAre(revisions: seq<Revision>, id: string)
    ensures Ids(Children(Kept(revisions), id)) == ChildIds(revisions, id)
    ensures |Children(Kept(revisions), id)| == |ChildIds(revisions, id)|
  {
    hide First, Filter, Kept;
    KeptAreFirst(revisions);
    KeptApart(revisions);
    FilterMembers(Kept(revisions), WithDown(Some(id)));
    FilterApart(Kept(revisions), WithDown(Some(id)));
  }

  lemma WalkedFromRoot(revisions: seq<Revision>)
    requires revisions != [] && |RootIds(revisions)| == 1
    ensures var (ordered, problems) := BuildChain(revisions);
            && ordered != [] && RootIds(revisions) == {ordered[0].id}
            && var end := ordered[|ordered| - 1].id;
               var stops := if |ChildIds(revisions, end)| > 1 then [BranchAfter(end, ChildIds(revisions, end))] else [];
               && |ChildIds(revisions, end)| != 1
               && problems == Faults(revisions) + stops
                              + if |ordered| != |Ids(revisions)| && Faults(revisions) + stops == []
                                then [Detached(|ordered|, |Ids(revisions)|)] else []
  {
    hide Walk, Filter, Faults, Kept, RootIds, ChildIds, Children, IsPath, First;
    var kept := Kept(revisions);
    var roots := Filter(kept, WithDown(None));
    KeptAreFirst(revisions);
    KeptApart(revisions);
    ApartIds(kept);
    RootsAre(revisions);
    FilterMembers(kept, WithDown(None));
    assert roots[0] in roots && IsPath([]) by { NoPath(); }
    WalkStops(kept, roots[0], []);
    var ordered := BuildChain(revisions).0;
    ChildrenAre(revisions, ordered[|ordered| - 1].id);
    assert ordered[0] == roots[0];
  }

  lemma NoPath()
    ensures IsPath([])
  {
  }

  lemma {:induction false} ApartIds(revisions: seq<Revision>)
    requires Apart(revisions)
    ensures |Ids(revisions)| == |revisions|
  {
    hide Apart, Ids;
    if revisions == [] {
      NoIds();
    } else {
      var before, last := revisions[..|revisions| - 1], revisions[|revisions| - 1];
      assert revisions == before + [last];
      ApartLast(before, last);
      ApartIds(before);
      OneMoreId(before, last);
    }
  }

  /** The walk starts at the single root, if there is one, and goes on until a revision on which not just one depends; a
      branch is reported there exactly if several do. Detached revisions are reported, with the counts, exactly when nothing
      else is and the walk did not come to all of them. */
  lemma WalkEndsExactly(revisions: seq<Revision>, id: string, names: set<string>, reached: nat, total: nat)
    requires revisions != []
    ensures var (ordered, problems) := BuildChain(revisions);
            && (ordered == [] <==> |RootIds(revisions)| != 1)
            && (ordered != [] ==>
                  RootIds(revisions) == {ordered[0].id} && |ChildIds(revisions, ordered[|ordered| - 1].id)| != 1)
            && (BranchAfter(id, names) in problems <==>
                  ordered != [] && id == ordered[|ordered| - 1].id && names == ChildIds(revisions, id) && |names| > 1)
            && (Detached(reached, total) in problems <==>
                  && reached == |ordered| && total == |Ids(revisions)| && reached != total
                  && forall p | p in problems :: p.Detached?)
  {
    hide BuildChain, Faults, RootIds, ChildIds, Ids, First;
    FaultsStop(revisions);
    if |RootIds(revisions)| == 1 {
      WalkedFromRoot(revisions);
      var (ordered, problems) := BuildChain(revisions);
      var end := ordered[|ordered| - 1].id;
      var stops := if |ChildIds(revisions, end)| > 1 then [BranchAfter(end, ChildIds(revisions, end))] else [];
      NoneIsEmpty(Faults(revisions) + stops);
      if forall p | p in problems :: p.Detached? {
        forall p ensures p !in Faults(revisions) + stops {
          assert p in Faults(revisions) + stops ==> p in problems && !p.Detached?;
        }
      }
    } else {
      NoSingleRoot(revisions);
    }
  }

  lemma NoneIsEmpty(problems: seq<Problem>)
    ensures problems == [] <==> forall p :: p !in problems
  {
    if problems != [] {
      assert problems[0] in problems;
    }
  }

  lemma FaultsStop(revisions: seq<Revision>)
    ensures forall p | p in Faults(revisions) :: !p.BranchAfter? && !p.Detached?
  {
    hide Kept, Filter;
    DuplicatesAreNoCycles(revisions);
    MissingAreNoCycles(Kept(revisions), Ids(Kept(revisions)));
  }

  lemma NoSingleRoot(revisions: seq<Revision>)
    requires revisions != [] && |RootIds(revisions)| != 1
    ensures BuildChain(revisions) == ([], Faults(revisions))
    ensures exists p :: p in Faults(revisions) && p.RootCount?
  {
    hide Walk, RootIds, Kept, Filter, Duplicates, Missing;
    RootsAre(revisions);
    assert RootCount(RootIds(revisions)) in Faults(revisions);
  }

  // ----------------------------------------------------------------- the program

  lemma SameIdIs(kept: seq<Revision>, first: Revision)
    requires Apart(kept) && first in kept
    ensures Filter(kept, WithId(first.id)) == [first]
  {
    forall r | r in kept && r.id == first.id ensures r == first {
      ApartIsUnique(kept, r, first);
    }
    FilterOne(kept, WithId(first.id), first);
  }

  /** Keep the first revision of each id, reporting the others. */
  method KeepFirst(revisions: seq<Revision>) returns (kept: seq<Revision>, problems: seq<Problem>)
    ensures kept == Kept(revisions) && problems == Duplicates(revisions)
  {
    hide Filter, Apart;
    var byId: map<string, Revision> := map[];
    kept, problems := [], [];
    for i := 0 to |revisions|
      invariant kept == Kept(revisions[..i]) && problems == Duplicates(revisions[..i])
      invariant byId.Keys == Ids(kept) && (forall id | id in byId :: byId[id] in kept && byId[id].id == id)
    {
      var r := revisions[i];
      assert revisions[..i + 1][..i] == revisions[..i];
      KeptApart(revisions[..i]);
      SameIdFound(kept, r.id);
      if r.id in byId {
        var first := byId[r.id];
        SameIdIs(kept, first);
        problems := problems + [DuplicateId(r.id, first.file, r.file)];
      } else {
        byId := byId[r.id := r];
        kept := kept + [r];
      }
    }
    assert revisions[..|revisions|] == revisions;
  }

  method Select(revisions: seq<Revision>, wanted: Revision -> bool) returns (found: seq<Revision>)
    ensures found == Filter(revisions, wanted)
  {
    found := [];
    for i := 0 to |revisions|
      invariant found == Filter(revisions[..i], wanted)
    {
      assert revisions[..i + 1][..i] == revisions[..i];
      if wanted(revisions[i]) {
        found := found + [revisions[i]];
      }
    }
    assert revisions[..|revisions|] == revisions;
  }

  method FindMissing(kept: seq<Revision>) returns (problems: seq<Problem>)
    ensures problems == Missing(kept, Ids(kept))
  {
    problems := [];
    for i := 0 to |kept|
      invariant problems == Missing(kept[..i], Ids(kept))
    {
      assert kept[..i + 1][..i] == kept[..i];
      var down := kept[i].down;
      if down.Some? && down.value !in Ids(kept) {
        problems := problems + [MissingDown(kept[i].file, down.value)];
      }
    }
    assert kept[..|kept|] == kept;
  }

  lemma FilterNone()
    ensures forall wanted :: Filter([], wanted) == []
  {
  }

  lemma FilterOn(before: seq<Revision>, last: Revision, wanted: Revision -> bool)
    ensures Filter(before + [last], wanted) == Filter(before, wanted) + if wanted(last) then [last] else []
  {
    assert (before + [last])[..|before|] == before;
  }

  /** The revisions by what they depend on. */
  method ByDown(kept: seq<Revision>) returns (children: map<Option<string>, seq<Revision>>)
    ensures forall d :: (if d in children then children[d] else []) == Filter(kept, WithDown(d))
  {
    hide Filter;
    children := map[];
    FilterNone();
    for i := 0 to |kept|
      invariant forall d :: (if d in children then children[d] else []) == Filter(kept[..i], WithDown(d))
    {
      assert kept[..i + 1] == kept[..i] + [kept[i]];
      forall e ensures Filter(kept[..i + 1], WithDown(e))
                         == Filter(kept[..i], WithDown(e)) + if kept[i].down == e then [kept[i]] else []
      {
        FilterOn(kept[..i], kept[i], WithDown(e));
      }
      var d := kept[i].down;
      children := children[d := (if d in children then children[d] else []) + [kept[i]]];
    }
    assert kept[..|kept|] == kept;
  }

  method WalkFrom(kept: seq<Revision>, root: Revision) returns (ordered: seq<Revision>, stops: seq<Problem>)
    requires root in kept
    ensures (ordered, stops) == Walk(kept, root, [])
  {
    hide Filter;
    var children := ByDown(kept);
    var cursor, seen := root, {};
    ordered, stops := [], [];
    while true
      invariant cursor in kept && seen == Ids(ordered) && stops == []
      invariant Walk(kept, root, []) == Walk(kept, cursor, ordered)
      decreases Ids(kept) - seen
    {
      if cursor.id in seen {
        stops := [CycleAt(cursor.id)];
        return;
      }
      ghost var before := ordered;
      seen := seen + {cursor.id};
      ordered := ordered + [cursor];
      assert seen == Ids(ordered) && cursor.id in Ids(kept);
      var key := Some(cursor.id);
      var next := if key in children then children[key] else [];
      assert next == Children(kept, cursor.id);
      if |next| > 1 {
        stops := [BranchAfter(cursor.id, Ids(next))];
        return;
      }
      if next == [] {
        return;
      }
      FilterMembers(kept, WithDown(key));
      assert next[0] in next;
      cursor := next[0];
    }
  }

  /** Validate the revisions: the chain, and what is wrong with it. */
  method Validate(revisions: seq<Revision>) returns (ordered: seq<Revision>, problems: seq<Problem>)
    ensures (ordered, problems) == BuildChain(revisions)
  {
    hide Walk, Kept, Duplicates, Missing, Filter;
    if revisions == [] {
      return [], [NoRevisions];
    }
    var kept, duplicates := KeepFirst(revisions);
    var missing := FindMissing(kept);
    var roots := Select(kept, WithDown(None));
    var heads := Select(kept, NotAmong(DependedOn(kept)));
    problems := duplicates + missing
      + (if |roots| != 1 then [RootCount(Ids(roots))] else [])
      + (if |heads| != 1 then [HeadCount(Ids(heads))] else []);
    assert problems == Faults(revisions);
    ordered := [];
    if |roots| == 1 {
      FilterMembers(kept, WithDown(None));
      assert roots[0] in roots;
      var stops;
      ordered, stops := WalkFrom(kept, roots[0]);
      problems := problems + stops;
      if |ordered| != |kept| && problems == [] {
        problems := problems + [Detached(|ordered|, |kept|)];
      } else {
        assert problems + [] == problems;
      }
    }
  }
}
