/** Building and then analysing: the round trip, and the order that does not matter. */
module StateRoundTrip {
  import opened Prelude
  import opened Dom
  import opened DomLaws
  import opened Interference
  import opened PathSplitter
  import opened StateDocument

  function NonEmpty(info: Info): Info {
    map n | n in info && info[n] != "" :: info[n]
  }

  /** What is held for a name, the empty string standing for nothing. */
  function ValueOf(info: Info, n: string): string {
    if n in info then info[n] else ""
  }

  /** What a document built from the names in `order` must hold for the name `n`. */
  function Expected(order: seq<string>, info: Info, n: string): string
    requires forall k :: k in order ==> k in info
  {
    if n in order then info[n] else ""
  }

  /** The order visits each of the map's names, in whatever sequence. */
  ghost predicate Visits(order: seq<string>, info: Info) {
    forall n :: n in order <==> n in info
  }

  ghost predicate Named(root: Element, rootName: string, rootNs: string) {
    root.name == rootName && root.ns == rootNs
  }

  /** A document that holds the expected values, and no document when there are none. */
  ghost predicate Reads(m: Mapper, rootName: string, rootNs: string, doc: Option<Element>,
                        order: seq<string>, info: Info)
    requires WellRooted(m, rootName, rootNs) && forall k :: k in order ==> k in info
  {
    && (doc.None? <==> forall n :: n in order ==> info[n] == "")
    && (doc.Some? ==>
          && Named(doc.value, rootName, rootNs)
          && forall n :: n in m.names ==>
               Value(doc.value, PathOf(m, m.names[n])) == Expected(order, info, n))
  }

  /** One write below the root: its own name reads the value, every other name is as before. */
  lemma WriteReads(m: Mapper, rootName: string, rootNs: string, root: Element,
                   name: string, v: string, n: string)
    requires Compatible(m, rootName, rootNs) && Named(root, rootName, rootNs)
    requires name in m.names && n in m.names
    ensures var p, q := PathOf(m, m.names[name]), PathOf(m, m.names[n]);
            && Rooted(p, rootName, rootNs)
            && Value(Put(root, p.steps[1..], p.target, v), q) == if n == name then v else Value(root, q)
  {
    hide Evaluable, PathOf, Put, Get;
    var p, q := PathOf(m, m.names[name]), PathOf(m, m.names[n]);
    assert Named(Put(root, p.steps[1..], p.target, v), rootName, rootNs) by {
      KeepsName(root, p.steps[1..], p.target, v);
    }
    if n == name {
      PutGet(root, p.steps[1..], p.target, v);
    } else {
      assert Apart(p, q);
      Frame(root, p.steps[1..], p.target, v, q.steps[1..], q.target);
    }
  }

  lemma KeepsName(root: Element, p: seq<Step>, t: Target, v: string)
    ensures Put(root, p, t, v).name == root.name && Put(root, p, t, v).ns == root.ns
  {
  }

  lemma EmptyReads(s: Step, p: Path)
    ensures Value(EmptyRoot(s), p) == ""
  {
    if p.steps != [] && p.steps[1..] != [] {
      assert GetKids([], p.steps[1..], p.target) == None;
    }
  }

  /** The element that a write for a compatible table's name starts from. */
  function RootFor(doc: Option<Element>, rootName: string, rootNs: string): Element {
    if doc.Some? then doc.value else Elem(rootNs, rootName, map[], [])
  }

  lemma EntryWrites(m: Mapper, rootName: string, rootNs: string, doc: Option<Element>, name: string, v: string)
    requires WellRooted(m, rootName, rootNs) && name in m.names && v != ""
    requires if doc.Some? then Named(doc.value, rootName, rootNs) else rootNs != ""
    ensures var p := PathOf(m, m.names[name]);
            && p.steps != []
            && BuildEntry(m, doc, name, v)
            == Building(Some(Put(RootFor(doc, rootName, rootNs), p.steps[1..], p.target, v)), None)
  {
    hide Evaluable, PathOf, Put, Sticks, Barred;
    OkPath(m, rootName, rootNs, name);
    NothingBarred(m, m.names[name]);
    var p, barred := PathOf(m, m.names[name]), Barred(m, Split(m.names[name]).parts);
    NothingBars(RootFor(doc, rootName, rootNs), p.steps[1..], barred[1..]);
  }

  /** An evaluable path has declared prefixes, so that all elements for it can be created. */
  lemma NothingBarred(m: Mapper, expr: string)
    requires Evaluable(m, expr)
    ensures AllOpen(Barred(m, Split(expr).parts))
    ensures Split(expr).parts.steps != [] ==> AllOpen(Barred(m, Split(expr).parts)[1..])
  {
    var parts := Split(expr).parts;
    forall i | 0 <= i < |parts.steps| ensures !Barred(m, parts)[i] {
      assert EvaluableStep(m, parts.steps[i]);
    }
  }

  lemma EntryReads(m: Mapper, rootName: string, rootNs: string, doc: Option<Element>,
                   order: seq<string>, info: Info, name: string)
    requires Compatible(m, rootName, rootNs) && name in info && name in m.names
    requires forall k :: k in order ==> k in info
    requires Reads(m, rootName, rootNs, doc, order, info)
    ensures var b := BuildEntry(m, doc, name, info[name]);
            b.error.None? && Reads(m, rootName, rootNs, b.doc, order + [name], info)
  {
    hide Evaluable, Rooted, SelfClobbers, Value, Put, Undisturbed, PathOf;
    if info[name] != "" {
      hide BuildEntry;
      var p := PathOf(m, m.names[name]);
      EntryWrites(m, rootName, rootNs, doc, name, info[name]);
      var root := RootFor(doc, rootName, rootNs);
      forall n | n in m.names
        ensures Value(Put(root, p.steps[1..], p.target, info[name]), PathOf(m, m.names[n]))
             == Expected(order + [name], info, n)
      {
        WriteReads(m, rootName, rootNs, root, name, info[name], n);
        EmptyReads(Step(rootNs, rootName, Any), PathOf(m, m.names[n]));
      }
      KeepsName(root, p.steps[1..], p.target, info[name]);
      assert name in order + [name];
    }
  }

  lemma OkPath(m: Mapper, rootName: string, rootNs: string, name: string)
    requires WellRooted(m, rootName, rootNs) && name in m.names
    ensures var r := Split(m.names[name]); r.Ok? && Resolve(m, r.parts) == PathOf(m, m.names[name])
    ensures var p := PathOf(m, m.names[name]);
            p.steps != [] && p.steps[0].name == rootName && p.steps[0].ns == rootNs
  {
  }

  lemma {:induction false} BuildReads(m: Mapper, rootName: string, rootNs: string, order: seq<string>, info: Info)
    requires Compatible(m, rootName, rootNs)
    requires forall k :: k in order ==> k in info && k in m.names
    ensures Build(m, order, info).error.None?
    ensures Reads(m, rootName, rootNs, Build(m, order, info).doc, order, info)
    decreases |order|
  {
    hide WellRooted, Undisturbed, Reads, BuildEntry;
    if order == [] {
      NothingRead(m, rootName, rootNs, info);
    } else {
      var init, name := order[..|order| - 1], order[|order| - 1];
      BuildReads(m, rootName, rootNs, init, info);
      EntryReads(m, rootName, rootNs, Build(m, init, info).doc, init, info, name);
      assert order == init + [name];
    }
  }

  lemma NothingRead(m: Mapper, rootName: string, rootNs: string, info: Info)
    requires WellRooted(m, rootName, rootNs)
    ensures Reads(m, rootName, rootNs, None, [], info)
  {
  }

  /** Building succeeds, builds nothing exactly when there is nothing, and analysing gives the values back. */
  ghost predicate Survives(m: Mapper, rootName: string, rootNs: string, order: seq<string>, info: Info)
    requires forall n :: n in order ==> n in info
  {
    var b := Build(m, order, info);
    && b.error.None?
    && (b.doc.None? <==> NonEmpty(info) == map[])
    && (b.doc.Some? ==> Analyse(m, b.doc, rootName, rootNs) == Success(NonEmpty(info)))
  }

  /** All values over the table's names survive, in every order. */
  ghost predicate RoundTrips(m: Mapper, rootName: string, rootNs: string) {
    forall order, info: Info :: Visits(order, info) && info.Keys <= m.names.Keys ==>
      Survives(m, rootName, rootNs, order, info)
  }

  /**
   The full round trip.  For a compatible table and values for its names, visited in any order,
   building raises no error; a document exists exactly when some value is non-empty; and
   analysing it yields exactly the non-empty values.
   */
  lemma RoundTrip(m: Mapper, rootName: string, rootNs: string, order: seq<string>, info: Info)
    requires Compatible(m, rootName, rootNs) && Visits(order, info) && info.Keys <= m.names.Keys
    ensures Survives(m, rootName, rootNs, order, info)
  {
    hide Build, Evaluable, PathOf, Value, ReadAll;
    BuildReads(m, rootName, rootNs, order, info);
    var b := Build(m, order, info);
    assert (forall n :: n in order ==> info[n] == "") <==> NonEmpty(info) == map[] by {
      assert forall n :: n in order && info[n] != "" ==> n in NonEmpty(info);
    }
    if b.doc.Some? {
      ReadsAll(m, rootName, rootNs, b.doc, order, info);
    }
  }

  lemma ReadsAll(m: Mapper, rootName: string, rootNs: string, doc: Option<Element>, order: seq<string>, info: Info)
    requires WellRooted(m, rootName, rootNs) && Visits(order, info) && info.Keys <= m.names.Keys
    requires doc.Some? && Reads(m, rootName, rootNs, doc, order, info)
    ensures ReadAll(m, doc.value) == NonEmpty(info)
  {
    hide Evaluable, PathOf, Value, Rooted, SelfClobbers;
    var got := ReadAll(m, doc.value);
    forall n ensures n in got <==> n in NonEmpty(info) {
      if n in m.names {
        assert Value(doc.value, PathOf(m, m.names[n])) == Expected(order, info, n);
      }
    }
  }

  lemma CompatibleRoundTrips(m: Mapper, rootName: string, rootNs: string)
    requires Compatible(m, rootName, rootNs)
    ensures RoundTrips(m, rootName, rootNs)
  {
    hide Compatible, Survives;
    forall order, info: Info | Visits(order, info) && info.Keys <= m.names.Keys
      ensures Survives(m, rootName, rootNs, order, info)
    {
      RoundTrip(m, rootName, rootNs, order, info);
    }
  }

  /** Whatever the table, building without an error makes a document exactly when there is a value to write. */
  lemma {:induction false} BuiltIff(m: Mapper, order: seq<string>, info: Info)
    requires forall n :: n in order ==> n in info
    requires Build(m, order, info).error.None?
    ensures Build(m, order, info).doc.None? <==> forall n :: n in order ==> info[n] == ""
    decreases |order|
  {
    hide Resolve, Split, Barred, Sticks, Put;
    if order != [] {
      var init, name := order[..|order| - 1], order[|order| - 1];
      assert order == init + [name];
      BuiltIff(m, init, info);
    }
  }

  /** Every order over the values builds a document that reads the same. */
  lemma OrderDoesNotMatter(m: Mapper, rootName: string, rootNs: string,
                           order: seq<string>, order': seq<string>, info: Info)
    requires Compatible(m, rootName, rootNs) && info.Keys <= m.names.Keys
    requires Visits(order, info) && Visits(order', info)
    ensures Analyse(m, Build(m, order, info).doc, rootName, rootNs)
         == Analyse(m, Build(m, order', info).doc, rootName, rootNs)
  {
    RoundTrip(m, rootName, rootNs, order, info);
    RoundTrip(m, rootName, rootNs, order', info);
  }
}
