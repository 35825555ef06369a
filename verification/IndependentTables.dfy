/**
 Tables whose paths are pairwise independent, in the plain sense of module Independence: they are
 compatible, so everything built from them reads back.  Among the tables that tell equal names
 apart by one attribute's values, they are the only ones with that property.
 */
module IndependentTables {
  import opened Prelude
  import opened Dom
  import opened Interference
  import opened Independence
  import opened StateDocument
  import opened StateRoundTrip

  predicate KeyedBelow(p: Path, q: Path) {
    p.steps != [] && q.steps != [] && Keyed(p.steps[1..], p.target, q.steps[1..], q.target)
  }

  predicate SeparateBelow(p: Path, q: Path) {
    p.steps != [] && q.steps != [] && Separate(p.steps[1..], p.target, q.steps[1..], q.target)
  }

  /** One plain root for all paths, and below it equal names told apart by one attribute's values. */
  predicate KeyedTable(m: Mapper, rootName: string, rootNs: string) {
    && AllEvaluable(m)
    && (forall n :: n in m.names ==>
          var p := PathOf(m, m.names[n]); Rooted(p, rootName, rootNs) && LeavesOwnTest(p.steps[1..], p.target))
    && forall n, n' :: n in m.names && n' in m.names && n != n' ==>
         KeyedBelow(PathOf(m, m.names[n]), PathOf(m, m.names[n']))
  }

  /** No text has a path running through it, and no two paths end in one place. */
  predicate SeparateTable(m: Mapper)
    requires AllEvaluable(m)
  {
    forall n, n' :: n in m.names && n' in m.names && n != n' ==>
      SeparateBelow(PathOf(m, m.names[n]), PathOf(m, m.names[n']))
  }

  predicate IndependentTable(m: Mapper, rootName: string, rootNs: string) {
    KeyedTable(m, rootName, rootNs) && SeparateTable(m) && rootNs != ""
  }

  lemma IndependentIsCompatible(m: Mapper, rootName: string, rootNs: string)
    requires IndependentTable(m, rootName, rootNs)
    ensures Compatible(m, rootName, rootNs)
  {
    hide Evaluable, PathOf, Interferes, Keyed, Separate, Rooted;
    forall n, n' | n in m.names && n' in m.names && n != n'
      ensures KeyedBelow(PathOf(m, m.names[n]), PathOf(m, m.names[n']))
      ensures Apart(PathOf(m, m.names[n]), PathOf(m, m.names[n']))
    {
      var p, q := PathOf(m, m.names[n]), PathOf(m, m.names[n']);
      assert KeyedBelow(p, q) && SeparateBelow(p, q);
      IndependentIsSilent(p.steps[1..], p.target, q.steps[1..], q.target);
    }
    assert WellRooted(m, rootName, rootNs) by {
      forall n | n in m.names
        ensures var p := PathOf(m, m.names[n]);
                Rooted(p, rootName, rootNs) && p.steps != [] && !SelfClobbers(p.steps[1..], p.target)
      {
        NotClobbering(PathOf(m, m.names[n]), rootName, rootNs);
      }
    }
  }

  lemma NotClobbering(p: Path, rootName: string, rootNs: string)
    requires Rooted(p, rootName, rootNs) && LeavesOwnTest(p.steps[1..], p.target)
    ensures p.steps != [] && !SelfClobbers(p.steps[1..], p.target)
  {
  }

  // ---------- The round trip ----------

  /** The full round trip for independent tables: no value lost, none made up, in every order. */
  lemma IndependentRoundTrip(m: Mapper, rootName: string, rootNs: string)
    requires IndependentTable(m, rootName, rootNs)
    ensures RoundTrips(m, rootName, rootNs)
  {
    hide IndependentTable, Compatible, RoundTrips;
    IndependentIsCompatible(m, rootName, rootNs);
    CompatibleRoundTrips(m, rootName, rootNs);
  }

  // ---------- Tables that are not independent lose values ----------

  /** Writing a text removes what was written along a longer path through it. */
  lemma {:induction false} Overwritten(e: Element, p: seq<Step>, q: seq<Step>, u: Target, w: string, v: string)
    requires e.kids == [] && p < q
    ensures Get(Put(Put(e, q, u, w), p, Content, v), q, u) == None
    decreases |p|
  {
    if p == [] {
      assert [Text(v)][1..] == [] && GetKids([], q, u) == None;
      assert GetKids([Text(v)], q, u) == None;
    } else {
      var child := Put(Fresh(q[0]), q[1..], u, w);
      assert child.attrs == Fresh(q[0]).attrs && Matches(p[0], child);
      Overwritten(Fresh(q[0]), p[1..], q[1..], u, w, v);
      var after := Put(child, p[1..], Content, v);
      assert PutKids([child], p, Content, v) == [after] + [child][1..];
      assert GetKid(after, q, u) == None;
      assert [after][1..] == [] && [child][1..] == [];
      assert GetKids([], q, u) == None;
    }
  }

  /** Two names are written one after the other, on a new document. */
  lemma BuildTwo(m: Mapper, rootName: string, rootNs: string, a: string, b: string, v: string, w: string)
    requires KeyedTable(m, rootName, rootNs) && a in m.names && b in m.names && a != b && v != "" && w != ""
    requires rootNs != ""
    ensures var p, q := PathOf(m, m.names[a]), PathOf(m, m.names[b]);
            && Rooted(p, rootName, rootNs) && Rooted(q, rootName, rootNs)
            && Build(m, [a, b], map[a := v, b := w])
            == Building(Some(Put(Put(Elem(rootNs, rootName, map[], []), p.steps[1..], p.target, v),
                                 q.steps[1..], q.target, w)), None)
  {
    hide Evaluable, PathOf, Put, BuildEntry, KeyedTable;
    KeyedIsRooted(m, rootName, rootNs);
    var info := map[a := v, b := w];
    var p, q := PathOf(m, m.names[a]), PathOf(m, m.names[b]);
    var first := Put(Elem(rootNs, rootName, map[], []), p.steps[1..], p.target, v);
    EntryWrites(m, rootName, rootNs, None, a, v);
    KeepsName(Elem(rootNs, rootName, map[], []), p.steps[1..], p.target, v);
    EntryWrites(m, rootName, rootNs, Some(first), b, w);
    assert [a, b][..1] == [a] && [a][..0] == [];
    assert Build(m, [], info) == Building(None, None);
    assert Build(m, [a], info) == BuildEntry(m, None, a, v);
    assert Build(m, [a, b], info) == BuildEntry(m, Some(first), b, w);
  }

  lemma KeyedIsRooted(m: Mapper, rootName: string, rootNs: string)
    requires KeyedTable(m, rootName, rootNs)
    ensures WellRooted(m, rootName, rootNs)
  {
    hide Evaluable, PathOf, Keyed, Rooted;
    forall n | n in m.names
      ensures var p := PathOf(m, m.names[n]);
              Rooted(p, rootName, rootNs) && p.steps != [] && !SelfClobbers(p.steps[1..], p.target)
    {
      NotClobbering(PathOf(m, m.names[n]), rootName, rootNs);
    }
  }

  /** What a surviving pair of values must read. */
  lemma SurvivorsRead(m: Mapper, rootName: string, rootNs: string, a: string, b: string, v: string, w: string)
    requires KeyedTable(m, rootName, rootNs) && a in m.names && b in m.names && a != b && v != "" && w != ""
    requires RoundTrips(m, rootName, rootNs)
    ensures var doc := Build(m, [a, b], map[a := v, b := w]).doc;
            && doc.Some?
            && Value(doc.value, PathOf(m, m.names[a])) == v && Value(doc.value, PathOf(m, m.names[b])) == w
  {
    hide Build, Evaluable, PathOf, Value, KeyedTable;
    KeyedIsRooted(m, rootName, rootNs);
    var info := map[a := v, b := w];
    assert Visits([a, b], info);
    assert Survives(m, rootName, rootNs, [a, b], info);
    assert a in NonEmpty(info) && b in NonEmpty(info) && NonEmpty(info)[a] == v && NonEmpty(info)[b] == w;
    var doc := Build(m, [a, b], info).doc;
    assert ReadAll(m, doc.value) == NonEmpty(info);
  }

  lemma OnePlaceLoses(m: Mapper, rootName: string, rootNs: string, a: string, b: string)
    requires KeyedTable(m, rootName, rootNs) && a in m.names && b in m.names && a != b
    requires PathOf(m, m.names[a]) == PathOf(m, m.names[b])
    ensures !RoundTrips(m, rootName, rootNs)
  {
    hide KeyedTable, RoundTrips, Build, PathOf, Value;
    if RoundTrips(m, rootName, rootNs) {
      SurvivorsRead(m, rootName, rootNs, a, b, "1", "2");
    }
  }

  lemma ThroughTextLoses(m: Mapper, rootName: string, rootNs: string, a: string, b: string)
    requires KeyedTable(m, rootName, rootNs) && a in m.names && b in m.names && a != b && rootNs != ""
    requires var p, q := PathOf(m, m.names[a]), PathOf(m, m.names[b]);
             p.target.Content? && p.steps != [] && q.steps != [] && p.steps[1..] < q.steps[1..]
    ensures !RoundTrips(m, rootName, rootNs)
  {
    hide KeyedTable, RoundTrips, Build, PathOf, Put, Get;
    KeyedIsRooted(m, rootName, rootNs);
    if RoundTrips(m, rootName, rootNs) {
      SurvivorsRead(m, rootName, rootNs, b, a, "2", "1");
      BuildTwo(m, rootName, rootNs, b, a, "2", "1");
      var p, q := PathOf(m, m.names[a]), PathOf(m, m.names[b]);
      Overwritten(Elem(rootNs, rootName, map[], []), p.steps[1..], q.steps[1..], q.target, "2", "1");
    }
  }

  lemma SamePath(p: Path, q: Path, rootName: string, rootNs: string)
    requires Rooted(p, rootName, rootNs) && Rooted(q, rootName, rootNs)
    requires p.steps[1..] == q.steps[1..] && p.target == q.target
    ensures p == q
  {
    assert p.steps == [p.steps[0]] + p.steps[1..] && q.steps == [q.steps[0]] + q.steps[1..];
  }

  /** Nothing can be built below a root without namespace. */
  lemma NoNamespaceLoses(m: Mapper, rootName: string, n: string)
    requires KeyedTable(m, rootName, "") && n in m.names
    ensures !RoundTrips(m, rootName, "")
  {
    hide Evaluable, PathOf, KeyedTable, Resolve, Analyse, Sticks;
    KeyedIsRooted(m, rootName, "");
    OkPath(m, rootName, "", n);
    var info := map[n := "1"];
    assert [n][..0] == [];
    assert Build(m, [], info) == Building(None, None);
    assert Build(m, [n], info) == BuildEntry(m, None, n, "1");
    assert Visits([n], info) && !Survives(m, rootName, "", [n], info);
  }

  lemma EmptyTableRoundTrips(m: Mapper, rootName: string, rootNs: string)
    requires m.names == map[]
    ensures RoundTrips(m, rootName, rootNs)
  {
    forall order, info: Info | Visits(order, info) && info.Keys <= m.names.Keys
      ensures Survives(m, rootName, rootNs, order, info)
    {
      assert info == map[];
      assert forall i :: 0 <= i < |order| ==> order[i] in info;
    }
  }

  lemma SeparateIfRoundTrips(m: Mapper, rootName: string, rootNs: string)
    requires KeyedTable(m, rootName, rootNs) && rootNs != "" && !SeparateTable(m)
    ensures !RoundTrips(m, rootName, rootNs)
  {
    hide Evaluable, PathOf, RoundTrips, Keyed, LeavesOwnTest;
    var n, n' :| n in m.names && n' in m.names && n != n' &&
                 !SeparateBelow(PathOf(m, m.names[n]), PathOf(m, m.names[n']));
    var p, q := PathOf(m, m.names[n]), PathOf(m, m.names[n']);
    assert KeyedBelow(p, q);
    if !TextIsLeaf(p.steps[1..], p.target, q.steps[1..]) {
      ThroughTextLoses(m, rootName, rootNs, n, n');
    } else if !TextIsLeaf(q.steps[1..], q.target, p.steps[1..]) {
      ThroughTextLoses(m, rootName, rootNs, n', n);
    } else {
      SamePath(p, q, rootName, rootNs);
      OnePlaceLoses(m, rootName, rootNs, n, n');
    }
  }

  /**
   Among the tables with one plain root that tell equal names apart by one attribute's values, all
   values survive in every order exactly when the root has a namespace, no text has a path running
   through it and no two paths end in one place; or when the table is empty.
   */
  lemma RoundTripsIff(m: Mapper, rootName: string, rootNs: string)
    requires KeyedTable(m, rootName, rootNs)
    ensures RoundTrips(m, rootName, rootNs) <==> (rootNs != "" && SeparateTable(m)) || m.names == map[]
  {
    hide RoundTrips, KeyedTable, SeparateTable, AllEvaluable;
    assert AllEvaluable(m) by {
      KeyedIsRooted(m, rootName, rootNs);
      RootedIsEvaluable(m, rootName, rootNs);
    }
    if m.names == map[] {
      EmptyTableRoundTrips(m, rootName, rootNs);
    } else if rootNs == "" {
      var n :| n in m.names;
      NoNamespaceLoses(m, rootName, n);
    } else if SeparateTable(m) {
      IndependentRoundTrip(m, rootName, rootNs);
    } else {
      SeparateIfRoundTrips(m, rootName, rootNs);
    }
  }

  lemma RootedIsEvaluable(m: Mapper, rootName: string, rootNs: string)
    requires WellRooted(m, rootName, rootNs)
    ensures AllEvaluable(m)
  {
  }
}
