/**
 Tables with the six face entries among any others that keep away from faces and from each other.
 All values survive the round trip exactly when the faces' times do not meet.
 */
module UserState {
  import opened Prelude
  import opened Dom
  import opened DomLaws
  import opened Interference
  import opened StateDocument
  import opened StateRoundTrip
  import opened FaceEntries
  import opened FaceView

  /** /semaine:user-state/bml:bml/bml:face[@test]/@att, resolved. */
  function FacePath(semaine: string, bml: string, i: Index): Path {
    Path([Step(semaine, "user-state", Any)] + FaceSteps(bml, TestOfEntry(i)), Attribute(ATTS[i]))
  }

  predicate IsFaceName(n: string) {
    n in ORDER
  }

  predicate OtherPath(semaine: string, bml: string, p: Path) {
    && Rooted(p, "user-state", semaine)
    && !SelfClobbers(p.steps[1..], p.target) && Aside(bml, p.steps[1..], p.target)
  }

  /** The table's entries for faces, and others that keep away from them and from each other. */
  predicate HasFaces(m: Mapper, semaine: string, bml: string) {
    && semaine != "" && AllEvaluable(m)
    && (forall i: Index :: ORDER[i] in m.names && PathOf(m, m.names[ORDER[i]]) == FacePath(semaine, bml, i))
    && (forall n :: n in m.names && !IsFaceName(n) ==> OtherPath(semaine, bml, PathOf(m, m.names[n])))
    && forall n, n' :: n in m.names && n' in m.names && !IsFaceName(n) && !IsFaceName(n') && n != n' ==>
         Apart(PathOf(m, m.names[n]), PathOf(m, m.names[n']))
  }

  lemma FacePathIsRooted(semaine: string, bml: string, i: Index)
    ensures var p := FacePath(semaine, bml, i);
            && Rooted(p, "user-state", semaine) && p.steps[1..] == FaceSteps(bml, TestOfEntry(i))
            && !SelfClobbers(p.steps[1..], p.target)
  {
  }

  lemma IsWellRooted(m: Mapper, semaine: string, bml: string)
    requires HasFaces(m, semaine, bml)
    ensures WellRooted(m, "user-state", semaine)
  {
    hide Evaluable, PathOf, FacePath, Aside, SelfClobbers;
    forall n | n in m.names
      ensures var p := PathOf(m, m.names[n]);
              Rooted(p, "user-state", semaine) && !SelfClobbers(p.steps[1..], p.target)
    {
      if IsFaceName(n) {
        FacePathIsRooted(semaine, bml, IndexIn(n));
      }
    }
  }

  function IndexIn(n: string): (i: Index)
    requires IsFaceName(n)
    ensures ORDER[i] == n
  {
    if n == ORDER[0] then 0 else if n == ORDER[1] then 1 else if n == ORDER[2] then 2
    else if n == ORDER[3] then 3 else if n == ORDER[4] then 4 else 5
  }

  lemma FaceNameIsAt(i: Index)
    ensures IsFaceName(ORDER[i]) && IndexIn(ORDER[i]) == i
  {
    NamesDiffer();
  }

  /** What the table says of a face entry's path. */
  lemma FaceEntryPath(m: Mapper, semaine: string, bml: string, name: string)
    requires HasFaces(m, semaine, bml) && IsFaceName(name)
    ensures AllEvaluable(m) && name in m.names
    ensures var p, i := PathOf(m, m.names[name]), IndexIn(name);
            && p == FacePath(semaine, bml, i) && p.steps != []
            && p.steps[1..] == FaceSteps(bml, TestOfEntry(i)) && p.target == Attribute(ATTS[i])
  {
    hide Evaluable, PathOf, OtherPath, Apart, IsFaceName;
    var i := IndexIn(name);
    assert ORDER[i] in m.names;
    FacePathIsRooted(semaine, bml, i);
  }

  /** What the table says of another entry's path. */
  lemma OtherEntryPath(m: Mapper, semaine: string, bml: string, n: string)
    requires HasFaces(m, semaine, bml) && n in m.names && !IsFaceName(n)
    ensures AllEvaluable(m) && OtherPath(semaine, bml, PathOf(m, m.names[n]))
  {
    hide Evaluable, PathOf, OtherPath, Apart, IsFaceName, FacePath;
  }

  lemma OthersApart(m: Mapper, semaine: string, bml: string, n: string, n': string)
    requires HasFaces(m, semaine, bml) && n in m.names && n' in m.names && !IsFaceName(n) && !IsFaceName(n') && n != n'
    ensures AllEvaluable(m)
    ensures PathOf(m, m.names[n]).steps != [] && PathOf(m, m.names[n']).steps != []
    ensures Apart(PathOf(m, m.names[n]), PathOf(m, m.names[n']))
  {
    hide Evaluable, PathOf, Aside, SelfClobbers, Apart, IsFaceName, FacePath;
    assert OtherPath(semaine, bml, PathOf(m, m.names[n])) && OtherPath(semaine, bml, PathOf(m, m.names[n']));
  }

  lemma FacesEvaluable(m: Mapper, semaine: string, bml: string)
    requires HasFaces(m, semaine, bml)
    ensures AllEvaluable(m)
  {
  }

  // ---------- What a document holds while it is built ----------

  /** The faces after the entries in `order`. */
  function FacesIn(order: seq<string>, info: Info): Faces
    requires forall n :: n in order ==> n in info
  {
    if order == [] then []
    else
      var before, n := FacesIn(order[..|order| - 1], info), order[|order| - 1];
      if IsFaceName(n) && info[n] != "" then PutFace(before, TestOfEntry(IndexIn(n)), ATTS[IndexIn(n)], info[n])
      else before
  }

  ghost predicate HoldsIn(m: Mapper, semaine: string, bml: string, root: Element, order: seq<string>, info: Info)
    requires AllEvaluable(m) && forall n :: n in order ==> n in info
  {
    && Named(root, "user-state", semaine) && OneBml(bml, root.kids) && FacesOf(bml, root) == FacesIn(order, info)
    && forall n :: n in m.names && !IsFaceName(n) ==>
         Value(root, PathOf(m, m.names[n])) == Expected(order, info, n)
  }

  ghost predicate Holds(m: Mapper, semaine: string, bml: string, doc: Option<Element>, order: seq<string>, info: Info)
    requires AllEvaluable(m) && forall n :: n in order ==> n in info
  {
    && (doc.None? <==> forall n :: n in order ==> info[n] == "")
    && HoldsIn(m, semaine, bml, RootFor(doc, "user-state", semaine), order, info)
  }

  /** Writing a face entry leaves what other names read. */
  lemma FaceEntryHolds(m: Mapper, semaine: string, bml: string, root: Element, order: seq<string>, info: Info,
                       name: string)
    requires HasFaces(m, semaine, bml) && name in info && IsFaceName(name) && info[name] != ""
    requires (forall n :: n in order ==> n in info) && HoldsIn(m, semaine, bml, root, order, info)
    ensures name in m.names
    ensures var p := PathOf(m, m.names[name]);
            && p.steps != []
            && HoldsIn(m, semaine, bml, Put(root, p.steps[1..], p.target, info[name]), order + [name], info)
  {
    hide HasFaces, Evaluable, PathOf, FacePath, Put, Value, FacesOf, OneBml, IsFaceName, PutFace;
    FaceEntryPath(m, semaine, bml, name);
    var i := IndexIn(name);
    var p, v := PathOf(m, m.names[name]), info[name];
    var after := Put(root, p.steps[1..], p.target, v);
    FaceWrite(bml, root, TestOfEntry(i), ATTS[i], v);
    KeepsName(root, p.steps[1..], p.target, v);
    assert (order + [name])[..|order|] == order;
    forall n | n in m.names && !IsFaceName(n)
      ensures Value(after, PathOf(m, m.names[n])) == Expected(order + [name], info, n)
    {
      OtherEntryPath(m, semaine, bml, n);
      FaceKeepsOther(semaine, bml, root, i, PathOf(m, m.names[n]), v);
    }
  }

  lemma FaceKeepsOther(semaine: string, bml: string, root: Element, i: Index, q: Path, v: string)
    requires OtherPath(semaine, bml, q)
    ensures Value(Put(root, FaceSteps(bml, TestOfEntry(i)), Attribute(ATTS[i]), v), q) == Value(root, q)
  {
    hide Put, Get;
    FacesDisturbNothing(bml, TestOfEntry(i), ATTS[i], q.steps[1..], q.target);
    Frame(root, FaceSteps(bml, TestOfEntry(i)), Attribute(ATTS[i]), v, q.steps[1..], q.target);
    KeepsName(root, FaceSteps(bml, TestOfEntry(i)), Attribute(ATTS[i]), v);
  }

  /** Writing another entry leaves the faces, and what the rest reads. */
  lemma OtherEntryHolds(m: Mapper, semaine: string, bml: string, root: Element, order: seq<string>, info: Info,
                        name: string)
    requires HasFaces(m, semaine, bml) && name in info && name in m.names && !IsFaceName(name) && info[name] != ""
    requires (forall n :: n in order ==> n in info) && HoldsIn(m, semaine, bml, root, order, info)
    ensures var p := PathOf(m, m.names[name]);
            && p.steps != []
            && HoldsIn(m, semaine, bml, Put(root, p.steps[1..], p.target, info[name]), order + [name], info)
  {
    hide HasFaces, Evaluable, PathOf, Put, Value, FacesOf, OneBml, Aside, SelfClobbers, Apart, IsFaceName;
    OtherEntryPath(m, semaine, bml, name);
    var p, v := PathOf(m, m.names[name]), info[name];
    var after := Put(root, p.steps[1..], p.target, v);
    AsideWrite(bml, root, p.steps[1..], p.target, v);
    KeepsName(root, p.steps[1..], p.target, v);
    assert (order + [name])[..|order|] == order;
    forall n | n in m.names && !IsFaceName(n)
      ensures Value(after, PathOf(m, m.names[n])) == Expected(order + [name], info, n)
    {
      OtherEntryPath(m, semaine, bml, n);
      if n != name {
        OthersApart(m, semaine, bml, name, n);
      }
      OtherKeepsOther(semaine, bml, root, p, PathOf(m, m.names[n]), v, n == name);
    }
  }

  lemma OtherKeepsOther(semaine: string, bml: string, root: Element, p: Path, q: Path, v: string, same: bool)
    requires OtherPath(semaine, bml, p) && OtherPath(semaine, bml, q) && Named(root, "user-state", semaine)
    requires if same then p == q else Apart(p, q)
    ensures Value(Put(root, p.steps[1..], p.target, v), q) == if same then v else Value(root, q)
  {
    hide Put, Get;
    KeepsName(root, p.steps[1..], p.target, v);
    if same {
      PutGet(root, p.steps[1..], p.target, v);
    } else {
      Frame(root, p.steps[1..], p.target, v, q.steps[1..], q.target);
    }
  }

  lemma EntryHolds(m: Mapper, semaine: string, bml: string, doc: Option<Element>, order: seq<string>, info: Info,
                   name: string)
    requires HasFaces(m, semaine, bml) && name in info && name in m.names
    requires (forall n :: n in order ==> n in info) && Holds(m, semaine, bml, doc, order, info)
    ensures var b := BuildEntry(m, doc, name, info[name]);
            b.error.None? && Holds(m, semaine, bml, b.doc, order + [name], info)
  {
    hide HasFaces, HoldsIn, PathOf, Put, AllEvaluable, WellRooted, IsFaceName, Resolve;
    FacesEvaluable(m, semaine, bml);
    if info[name] != "" {
      hide BuildEntry;
      IsWellRooted(m, semaine, bml);
      NamedRoot(m, semaine, bml, doc, order, info);
      EntryWrites(m, "user-state", semaine, doc, name, info[name]);
      var root := RootFor(doc, "user-state", semaine);
      if IsFaceName(name) {
        FaceEntryHolds(m, semaine, bml, root, order, info, name);
      } else {
        OtherEntryHolds(m, semaine, bml, root, order, info, name);
      }
      assert name in order + [name];
    } else {
      EmptyEntryHolds(m, semaine, bml, RootFor(doc, "user-state", semaine), order, info, name);
    }
  }

  lemma NamedRoot(m: Mapper, semaine: string, bml: string, doc: Option<Element>, order: seq<string>, info: Info)
    requires HasFaces(m, semaine, bml) && forall n :: n in order ==> n in info
    requires Holds(m, semaine, bml, doc, order, info)
    ensures if doc.Some? then Named(doc.value, "user-state", semaine) else semaine != ""
  {
  }

  lemma EmptyEntryHolds(m: Mapper, semaine: string, bml: string, root: Element, order: seq<string>, info: Info,
                        name: string)
    requires AllEvaluable(m) && name in info && info[name] == "" && forall n :: n in order ==> n in info
    requires HoldsIn(m, semaine, bml, root, order, info)
    ensures HoldsIn(m, semaine, bml, root, order + [name], info)
  {
    hide Evaluable, PathOf, Value, FacesOf, OneBml;
    assert (order + [name])[..|order|] == order;
  }

  lemma {:induction false} BuildHolds(m: Mapper, semaine: string, bml: string, order: seq<string>, info: Info)
    requires HasFaces(m, semaine, bml) && forall n :: n in order ==> n in info && n in m.names
    ensures Build(m, order, info).error.None?
    ensures Holds(m, semaine, bml, Build(m, order, info).doc, order, info)
    decreases |order|
  {
    hide BuildEntry, HoldsIn, PathOf;
    if order == [] {
      StartHolds(m, semaine, bml, info);
    } else {
      var init, name := order[..|order| - 1], order[|order| - 1];
      assert order == init + [name];
      BuildHolds(m, semaine, bml, init, info);
      hide HasFaces, Holds;
      EntryHolds(m, semaine, bml, Build(m, init, info).doc, init, info, name);
    }
  }

  lemma StartHolds(m: Mapper, semaine: string, bml: string, info: Info)
    requires HasFaces(m, semaine, bml)
    ensures HoldsIn(m, semaine, bml, Elem(semaine, "user-state", map[], []), [], info)
  {
    hide Evaluable, PathOf, Value;
    forall n | n in m.names && !IsFaceName(n)
      ensures Value(Elem(semaine, "user-state", map[], []), PathOf(m, m.names[n])) == ""
    {
      EmptyReads(Step(semaine, "user-state", Any), PathOf(m, m.names[n]));
    }
  }

  // ---------- The order of the face entries ----------

  function FaceNames(order: seq<string>): seq<string> {
    if order == [] then []
    else
      var n := order[|order| - 1];
      if IsFaceName(n) then FaceNames(order[..|order| - 1]) + [n] else FaceNames(order[..|order| - 1])
  }

  lemma {:induction false} OnlyFaceNamesCount(order: seq<string>, info: Info)
    requires forall n :: n in order ==> n in info
    ensures (forall n :: n in FaceNames(order) ==> n in info) && FacesIn(FaceNames(order), info) == FacesIn(order, info)
    decreases |order|
  {
    if order != [] {
      var init, n := order[..|order| - 1], order[|order| - 1];
      OnlyFaceNamesCount(init, info);
      if IsFaceName(n) {
        assert (FaceNames(init) + [n])[..|FaceNames(init)|] == FaceNames(init);
      }
    }
  }

  lemma {:induction false} FacesInOrder(info: Info, k: nat)
    requires k <= 6
    ensures FacesIn(InOrder(info, k), info) == FacesAfter(info, k)
  {
    hide PutFace;
    if k > 0 {
      FacesInOrder(info, k - 1);
      var n := ORDER[k - 1];
      if n in info {
        assert (InOrder(info, k - 1) + [n])[..|InOrder(info, k - 1)|] == InOrder(info, k - 1);
        NamesDiffer();
        assert IndexIn(n) == k - 1;
      }
    }
  }

  /** The order visits the values, the face entries among them in the order of the map. */
  ghost predicate VisitsInOrder(order: seq<string>, info: Info) {
    Visits(order, info) && FaceNames(order) == InOrder(info, 6)
  }

  // ---------- The exact condition ----------

  /** What each name reads in the document that is built. */
  lemma BuiltReads(m: Mapper, semaine: string, bml: string, order: seq<string>, info: Info, n: string)
    requires HasFaces(m, semaine, bml) && VisitsInOrder(order, info) && info.Keys <= m.names.Keys && n in m.names
    ensures var b := Build(m, order, info);
            && b.error.None?
            && (b.doc.None? <==> forall k :: k in order ==> info[k] == "")
            && (b.doc.Some? ==>
                  && Named(b.doc.value, "user-state", semaine)
                  && Value(b.doc.value, PathOf(m, m.names[n]))
                  == if IsFaceName(n) then ReadBack(info, IndexIn(n)) else Expected(order, info, n))
  {
    hide Build, Evaluable, PathOf, FacePath, Value, FacesIn, FacesAfter, GetFace, FacesOf, OneBml, InOrder, FaceNames;
    BuildHolds(m, semaine, bml, order, info);
    var doc := Build(m, order, info).doc;
    OnlyFaceNamesCount(order, info);
    FacesInOrder(info, 6);
    if doc.Some? && IsFaceName(n) {
      assert PathOf(m, m.names[ORDER[IndexIn(n)]]) == FacePath(semaine, bml, IndexIn(n));
      FaceReads(semaine, bml, doc.value, IndexIn(n));
    }
  }

  lemma FaceReads(semaine: string, bml: string, root: Element, i: Index)
    requires Named(root, "user-state", semaine) && OneBml(bml, root.kids)
    ensures Value(root, FacePath(semaine, bml, i)) == GetFace(FacesOf(bml, root), TestOfEntry(i), ATTS[i])
  {
    hide GetFace, TestOfEntry, OneBml, FacesBelow;
    FacePathSteps(semaine, bml, i);
    GetBelow(bml, root.kids, TestOfEntry(i), ATTS[i]);
    var p := FaceSteps(bml, TestOfEntry(i));
    assert Get(root, p, Attribute(ATTS[i])) == GetKids(root.kids, p, Attribute(ATTS[i]));
  }

  lemma FacePathSteps(semaine: string, bml: string, i: Index)
    ensures var p := FacePath(semaine, bml, i);
            p.steps != [] && p.steps[0] == Step(semaine, "user-state", Any) &&
            p.steps[1..] == FaceSteps(bml, TestOfEntry(i))
  {
  }

  /** The document reads as the given values exactly when each face entry reads back what was given. */
  lemma ReadAllIff(m: Mapper, semaine: string, bml: string, order: seq<string>, info: Info)
    requires HasFaces(m, semaine, bml) && VisitsInOrder(order, info) && info.Keys <= m.names.Keys
    requires Build(m, order, info).doc.Some?
    ensures ReadAll(m, Build(m, order, info).doc.value) == NonEmpty(info) <==>
              forall i: Index :: ReadBack(info, i) == Given(info, i)
  {
    hide Build, HasFaces, Evaluable, PathOf, Value, ReadBack, VisitsInOrder, IsFaceName, ReadAll, NonEmpty;
    FacesEvaluable(m, semaine, bml);
    VisitedOnce(order, info, "");
    var root := Build(m, order, info).doc.value;
    var got := ReadAll(m, root);
    forall n | n in m.names
      ensures ValueOf(got, n) == if IsFaceName(n) then ReadBack(info, IndexIn(n)) else ValueOf(info, n)
    {
      BuiltReads(m, semaine, bml, order, info, n);
      VisitedOnce(order, info, n);
      ReadAllAt(m, root, n);
    }
    forall i: Index
      ensures ORDER[i] in m.names && IsFaceName(ORDER[i]) && IndexIn(ORDER[i]) == i
    {
      FaceNameIsAt(i);
      FaceEntryPath(m, semaine, bml, ORDER[i]);
    }
    ReadAllKeys(m, root);
    SameValues(m, got, info);
    if forall i: Index :: ReadBack(info, i) == Given(info, i) {
      forall n | n in m.names ensures ValueOf(got, n) == ValueOf(info, n) {
        if IsFaceName(n) {
          assert ReadBack(info, IndexIn(n)) == Given(info, IndexIn(n));
        }
      }
    } else {
      var i: Index :| ReadBack(info, i) != Given(info, i);
      assert ValueOf(got, ORDER[i]) != ValueOf(info, ORDER[i]);
    }
  }

  lemma ReadAllAt(m: Mapper, root: Element, n: string)
    requires AllEvaluable(m) && n in m.names
    ensures ValueOf(ReadAll(m, root), n) == Value(root, PathOf(m, m.names[n]))
  {
    hide Evaluable, PathOf, Value;
  }

  lemma ReadAllKeys(m: Mapper, root: Element)
    requires AllEvaluable(m)
    ensures var got := ReadAll(m, root); got.Keys <= m.names.Keys && forall n :: n in got ==> got[n] != ""
  {
    hide Evaluable, PathOf, Value;
  }

  lemma VisitedOnce(order: seq<string>, info: Info, n: string)
    requires VisitsInOrder(order, info)
    ensures (forall k :: k in order ==> k in info) && Expected(order, info, n) == ValueOf(info, n)
  {
  }

  lemma SameValues(m: Mapper, got: Info, info: Info)
    requires got.Keys <= m.names.Keys && info.Keys <= m.names.Keys && forall n :: n in got ==> got[n] != ""
    ensures got == NonEmpty(info) <==> forall n :: n in m.names ==> ValueOf(got, n) == ValueOf(info, n)
  {
    if got == NonEmpty(info) {
      forall n | n in m.names ensures ValueOf(got, n) == ValueOf(info, n) { }
    } else if forall n :: n in m.names ==> ValueOf(got, n) == ValueOf(info, n) {
      forall n ensures n in got <==> n in NonEmpty(info)
               ensures n in got ==> got[n] == info[n]
      {
        if n in m.names {
          assert ValueOf(got, n) == ValueOf(info, n);
        }
      }
      assert false;
    }
  }

  /**
   For every choice of values for the table's names, built in an order that keeps the map's among the
   face entries: the values survive the round trip exactly when no shape is given, or nothing about
   the action units, or both have the same times, not given counting as the same as empty.
   */
  lemma UserRoundTripIff(m: Mapper, semaine: string, bml: string, order: seq<string>, info: Info)
    requires HasFaces(m, semaine, bml) && VisitsInOrder(order, info) && info.Keys <= m.names.Keys
    ensures var b := Build(m, order, info);
            && b.error.None?
            && (b.doc.None? <==> NonEmpty(info) == map[])
            && (b.doc.Some? ==>
                  (Analyse(m, b.doc, "user-state", semaine) == Success(NonEmpty(info)) <==> TimesApart(info)))
  {
    hide Build, ReadAll, TimesApart, ReadBack, Given, Evaluable, PathOf, Value, OtherPath, Apart;
    BuiltReads(m, semaine, bml, order, info, ORDER[0]);
    assert (forall n :: n in order ==> info[n] == "") <==> NonEmpty(info) == map[] by {
      assert forall n :: n in order && info[n] != "" ==> n in NonEmpty(info);
    }
    if Build(m, order, info).doc.Some? {
      ReadAllIff(m, semaine, bml, order, info);
      ApartIffReadBack(info);
    }
  }
}
