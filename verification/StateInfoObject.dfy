/** The state-info object: named values, and a document cached until a value is set. */
module StateInfoObject {
  import opened Prelude
  import opened Dom
  import opened DomWriter
  import opened PathSplitter
  import opened StateDocument
  import opened StateRoundTrip
  import opened StateAnalysis

  // ---------- Its states and steps, on values ----------

  datatype Cell = Cell(info: Info, doc: Option<Element>)

  function SetInfoStep(m: Mapper, c: Cell, name: string, value: string): Cell {
    if name in m.names then Cell(c.info[name := value], None) else c
  }

  function GetDocumentStep(m: Mapper, c: Cell, order: seq<string>): Building
    requires Visits(order, c.info)
  {
    if c.doc.Some? then Building(c.doc, None) else Build(m, order, c.info)
  }

  ghost predicate Starts(m: Mapper, rootName: string, rootNs: string, c: Cell) {
    || (c.doc.None? && c.info.Keys <= m.names.Keys)
    || (c.doc.Some? && Analyse(m, c.doc, rootName, rootNs) == Success(c.info))
  }

  ghost predicate SetsInfo(m: Mapper, c: Cell, c': Cell) {
    exists name, value :: c' == SetInfoStep(m, c, name, value)
  }

  ghost predicate GetsDocument(m: Mapper, c: Cell, c': Cell) {
    exists order :: Visits(order, c.info) && c' == Cell(c.info, GetDocumentStep(m, c, order).doc)
  }

  ghost predicate IsRun(m: Mapper, rootName: string, rootNs: string, run: seq<Cell>) {
    run != [] && Starts(m, rootName, rootNs, run[0]) &&
    forall i :: 0 <= i < |run| - 1 ==> SetsInfo(m, run[i], run[i + 1]) || GetsDocument(m, run[i], run[i + 1])
  }

  /** Keys stay within the table, and a cached document reads as the current values. */
  ghost predicate Coherent(m: Mapper, rootName: string, rootNs: string, c: Cell) {
    c.info.Keys <= m.names.Keys &&
    (c.doc.Some? ==> Analyse(m, c.doc, rootName, rootNs) == Success(NonEmpty(c.info)))
  }

  lemma StartIsCoherent(m: Mapper, rootName: string, rootNs: string, c: Cell)
    requires Starts(m, rootName, rootNs, c)
    ensures Coherent(m, rootName, rootNs, c)
  {
    hide Evaluable, PathOf, Value;
    if c.doc.Some? {
      assert NonEmpty(c.info) == c.info;
    }
  }

  lemma FetchIsCoherent(m: Mapper, rootName: string, rootNs: string, c: Cell, order: seq<string>)
    requires RoundTrips(m, rootName, rootNs) && Coherent(m, rootName, rootNs, c) && Visits(order, c.info)
    ensures var b := GetDocumentStep(m, c, order);
            && b.error.None?
            && (b.doc.None? ==> NonEmpty(c.info) == map[])
            && Coherent(m, rootName, rootNs, Cell(c.info, b.doc))
  {
    hide Build, Analyse;
    assert Survives(m, rootName, rootNs, order, c.info);
  }

  /** Fetching the document raises no error, in whatever order the values are visited. */
  ghost predicate Fetches(m: Mapper, c: Cell) {
    forall order :: Visits(order, c.info) ==> GetDocumentStep(m, c, order).error.None?
  }

  /**
   Cache coherence: for a table whose values survive the round trip, over every run of construction,
   setting values and fetching the document, a cached document reads as the current non-empty
   values, the keys stay within the table, and fetching raises no error.
   */
  lemma {:induction false} RunsAreCoherent(m: Mapper, rootName: string, rootNs: string, run: seq<Cell>, i: nat)
    requires RoundTrips(m, rootName, rootNs) && IsRun(m, rootName, rootNs, run) && i < |run|
    ensures Coherent(m, rootName, rootNs, run[i]) && Fetches(m, run[i])
  {
    hide RoundTrips, Starts, GetDocumentStep, Analyse;
    if i == 0 {
      StartIsCoherent(m, rootName, rootNs, run[0]);
    } else {
      RunsAreCoherent(m, rootName, rootNs, run, i - 1);
      var c := run[i - 1];
      assert SetsInfo(m, c, run[i - 1 + 1]) || GetsDocument(m, c, run[i - 1 + 1]);
      if GetsDocument(m, c, run[i]) {
        var order :| Visits(order, c.info) && run[i] == Cell(c.info, GetDocumentStep(m, c, order).doc);
        FetchIsCoherent(m, rootName, rootNs, c, order);
      }
    }
    forall order | Visits(order, run[i].info) ensures GetDocumentStep(m, run[i], order).error.None? {
      FetchIsCoherent(m, rootName, rootNs, run[i], order);
    }
  }

  /** Every state of every run is coherent and its document can be fetched. */
  ghost predicate AlwaysCoherent(m: Mapper, rootName: string, rootNs: string) {
    forall run, i :: IsRun(m, rootName, rootNs, run) && 0 <= i < |run| ==>
      Coherent(m, rootName, rootNs, run[i]) && Fetches(m, run[i])
  }

  /** Two states of a run show whether given values survive. */
  lemma CoherentSurvives(m: Mapper, rootName: string, rootNs: string, order: seq<string>, info: Info)
    requires AlwaysCoherent(m, rootName, rootNs) && Visits(order, info) && info.Keys <= m.names.Keys
    ensures Survives(m, rootName, rootNs, order, info)
  {
    hide Build, Analyse;
    var start := Cell(info, None);
    var b := Build(m, order, info);
    var run := [start, Cell(info, b.doc)];
    assert Starts(m, rootName, rootNs, start);
    assert GetsDocument(m, start, run[1]);
    assert IsRun(m, rootName, rootNs, run);
    assert Fetches(m, run[0]) && GetDocumentStep(m, start, order) == b;
    assert Coherent(m, rootName, rootNs, run[1]);
    BuiltIff(m, order, info);
    assert (forall n :: n in order ==> info[n] == "") <==> NonEmpty(info) == map[] by {
      assert forall n :: n in order && info[n] != "" ==> n in NonEmpty(info);
    }
  }

  /** For every table: the cache is coherent over every run exactly when all values survive the round trip. */
  lemma CoherentIffRoundTrips(m: Mapper, rootName: string, rootNs: string)
    ensures AlwaysCoherent(m, rootName, rootNs) <==> RoundTrips(m, rootName, rootNs)
  {
    hide Survives, Coherent, Fetches, IsRun;
    if AlwaysCoherent(m, rootName, rootNs) {
      forall order, info: Info | Visits(order, info) && info.Keys <= m.names.Keys
        ensures Survives(m, rootName, rootNs, order, info)
      {
        CoherentSurvives(m, rootName, rootNs, order, info);
      }
    }
    if RoundTrips(m, rootName, rootNs) {
      forall run, i | IsRun(m, rootName, rootNs, run) && 0 <= i < |run|
        ensures Coherent(m, rootName, rootNs, run[i]) && Fetches(m, run[i])
      {
        RunsAreCoherent(m, rootName, rootNs, run, i);
      }
    }
  }

  // ---------- The object ----------

  /** The keys of a map, in some order of iteration. */
  method KeysOf(m: map<string, string>) returns (order: seq<string>)
    ensures forall n :: n in order <==> n in m
  {
    order := [];
    var rest := m.Keys;
    while rest != {}
      invariant rest <= m.Keys
      invariant forall n :: n in order <==> n in m.Keys - rest
    {
      var n :| n in rest;
      order := order + [n];
      rest := rest - {n};
    }
  }

  /** Writes one entry into the document: split the path, check or create the root, walk down. */
  method WriteEntry(m: Mapper, doc: Option<Element>, name: string, value: string) returns (b: Building)
    ensures b == BuildEntry(m, doc, name, value)
  {
    hide Split, Put, Sticks;
    if value == "" {
      return Building(doc, None);
    }
    if name !in m.names {
      return Building(doc, Some(NoEntry));
    }
    var parts := SplitXPathIntoParts(m.names[name]);
    if parts.Hangs? {
      return Building(doc, Some(PathHangs));
    } else if parts.Err? {
      return Building(doc, Some(BadPath));
    }
    var p := Resolve(m, parts.parts);
    if p.steps == [] {
      return Building(doc, Some(NoElements));
    }
    var current := EmptyRoot(p.steps[0]);
    if doc.None? {
      if current.ns == "" {
        return Building(Some(current), Some(NoNamespace));
      }
    } else {
      current := doc.value;
      if current.name != p.steps[0].name {
        return Building(doc, Some(RootName));
      }
      if current.ns != p.steps[0].ns {
        return Building(doc, Some(RootNamespace));
      }
    }
    var barred := Barred(m, parts.parts);
    var tree, stuck := WriteAlongPath(current, p.steps[1..], barred[1..], p.target, value);
    return Building(Some(tree), if stuck then Some(NoNamespace) else None);
  }

  lemma AllFound(m: Mapper, root: Element, found: Info)
    requires AllEvaluable(m)
    requires forall n :: n in found <==> n in m.names && Value(root, PathOf(m, m.names[n])) != ""
    requires forall n :: n in found ==> found[n] == Value(root, PathOf(m, m.names[n]))
    ensures found == ReadAll(m, root)
  {
    hide Evaluable, Value, PathOf;
  }

  lemma AllAnalysedValues(m: Mapper, doc: Option<Element>, rootName: string, rootNs: string)
    requires HasRoot(doc, rootName, rootNs) && AllEvaluable(m)
    ensures var r := Analyse(m, doc, rootName, rootNs);
            && r.Success?
            && forall n, x :: ReadsAs(m, doc.value, n, x) <==> n in r.value && r.value[n] == x
  {
    hide Evaluable, ReadsAs, Analyse;
    AnalyseOutcomes(m, doc, rootName, rootNs);
    forall n, x
      ensures var r := Analyse(m, doc, rootName, rootNs);
              ReadsAs(m, doc.value, n, x) <==> n in r.value && r.value[n] == x
    {
      AnalysedValues(m, doc, rootName, rootNs, n, x);
    }
  }

  class StateInfo {
    const mapper: Mapper
    var info: Info
    var doc: Option<Element>

    ghost function Abs(): Cell
      reads this
    {
      Cell(info, doc)
    }

    constructor (mapper: Mapper, info: Info, doc: Option<Element>)
      ensures this.mapper == mapper && Abs() == Cell(info, doc)
    {
      this.mapper, this.info, this.doc := mapper, info, doc;
    }

    /** A new object from given values: refused when a name is not in the table. */
    static method FromItems(mapper: Mapper, items: Info) returns (s: StateInfo?)
      ensures s != null <==> items.Keys <= mapper.names.Keys
      ensures s != null ==> fresh(s) && s.mapper == mapper && s.Abs() == Cell(items, None)
    {
      var keys := KeysOf(items);
      for i := 0 to |keys|
        invariant forall j :: 0 <= j < i ==> keys[j] in mapper.names
      {
        if keys[i] !in mapper.names {
          return null;
        }
      }
      assert forall k :: k in items ==> k in keys;
      s := new StateInfo(mapper, items, None);
    }

    /** A new object from a received document, holding what analysing it finds. */
    static method FromDocument(mapper: Mapper, doc: Option<Element>, rootName: string, rootNs: string)
        returns (s: StateInfo?, error: Option<AnalyseError>)
      ensures match Analyse(mapper, doc, rootName, rootNs)
              case Failure(e) => error == Some(e) && s == null
              case Success(read) =>
                error.None? && s != null && fresh(s) && s.mapper == mapper && s.Abs() == Cell(read, doc)
      ensures s != null <==> HasRoot(doc, rootName, rootNs) && AllEvaluable(mapper)
      ensures s != null ==> s.doc == doc
      ensures s != null ==>
                forall n, x :: ReadsAs(mapper, doc.value, n, x) <==> n in s.info && s.info[n] == x
    {
      hide Evaluable, AllEvaluable, ReadAll, ReadsAs, Analyse;
      AnalyseOutcomes(mapper, doc, rootName, rootNs);
      s := new StateInfo(mapper, map[], doc);
      error := s.AnalyseDocument(rootName, rootNs);
      if error.Some? {
        s := null;
      } else {
        assert map[] + Analyse(mapper, doc, rootName, rootNs).value == Analyse(mapper, doc, rootName, rootNs).value;
        AllAnalysedValues(mapper, doc, rootName, rootNs);
      }
    }

    /** Evaluates every path of the table and stores what is found and not empty. */
    method AnalyseDocument(rootName: string, rootNs: string) returns (error: Option<AnalyseError>)
      modifies this`info
      ensures match Analyse(mapper, doc, rootName, rootNs)
              case Failure(e) => error == Some(e)
              case Success(read) => error.None? && info == old(info) + read
      ensures error.None? <==> HasRoot(doc, rootName, rootNs) && AllEvaluable(mapper)
      ensures !HasRoot(doc, rootName, rootNs) ==> info == old(info)
    {
      hide Evaluable, Value, PathOf, ReadAll;
      if doc.None? {
        return Some(NullDocument);
      }
      var root := doc.value;
      if root.name != rootName {
        return Some(WrongRootName);
      }
      if root.ns != rootNs {
        return Some(WrongRootNamespace);
      }
      var names := KeysOf(mapper.names);
      ghost var found: Info := map[];
      for i := 0 to |names|
        invariant doc == Some(root)
        invariant forall j :: 0 <= j < i ==> Evaluable(mapper, mapper.names[names[j]])
        invariant info == old(info) + found
        invariant forall n :: n in found <==>
                    n in names[..i] && Value(root, PathOf(mapper, mapper.names[n])) != ""
        invariant forall n :: n in found ==> found[n] == Value(root, PathOf(mapper, mapper.names[n]))
      {
        var n := names[i];
        if !Evaluable(mapper, mapper.names[n]) {
          return Some(BadExpression);
        }
        assert names[..i + 1] == names[..i] + [n];
        var value := Value(root, PathOf(mapper, mapper.names[n]));
        if value != "" {
          info := info[n := value];
          found := found[n := value];
        }
      }
      assert names[..|names|] == names;
      AllFound(mapper, root, found);
      return None;
    }

    /** Sets a value and drops the cached document: refused when the name is not in the table. */
    method SetInfo(name: string, value: string) returns (known: bool)
      modifies this
      ensures known <==> name in mapper.names
      ensures Abs() == SetInfoStep(mapper, old(Abs()), name, value)
      ensures known ==> info == old(info)[name := value] && doc == None
      ensures !known ==> info == old(info) && doc == old(doc)
    {
      known := name in mapper.names;
      if known {
        info := info[name := value];
        doc := None;
      }
    }

    /** The cached document, built first when there is none. */
    method GetDocument() returns (d: Option<Element>, error: Option<BuildError>, order: seq<string>)
      modifies this`doc
      ensures d == doc && Visits(order, info)
      ensures Building(doc, error) == GetDocumentStep(mapper, old(Abs()), order)
      ensures old(doc).Some? ==> doc == old(doc) && error.None?
      ensures old(doc).None? ==> Building(doc, error) == Build(mapper, order, info)
    {
      if doc.None? {
        error, order := CreateDocumentFromInfo();
      } else {
        order := KeysOf(info);
        error := None;
      }
      d := doc;
    }

    /** Builds the document entry by entry; an error leaves the entries written so far. */
    method CreateDocumentFromInfo() returns (error: Option<BuildError>, order: seq<string>)
      modifies this`doc
      ensures Visits(order, info)
      ensures Building(doc, error) == Build(mapper, order, info)
    {
      hide BuildEntry;
      doc, error := None, None;
      order := KeysOf(info);
      for i := 0 to |order|
        invariant Visits(order, info)
        invariant Build(mapper, order[..i], info) == Building(doc, None)
      {
        assert order[..i + 1][..i] == order[..i];
        var b := WriteEntry(mapper, doc, order[i], info[order[i]]);
        doc := b.doc;
        assert Build(mapper, order[..i + 1], info) == b;
        if b.error.Some? {
          error := b.error;
          ErrorsStay(mapper, order, i + 1, info);
          return;
        }
      }
      assert order[..|order|] == order;
    }
  }

  lemma {:induction false} ErrorsStay(m: Mapper, order: seq<string>, i: nat, info: Info)
    requires i <= |order| && (forall n :: n in order ==> n in info)
    requires Build(m, order[..i], info).error.Some?
    ensures Build(m, order, info) == Build(m, order[..i], info)
    decreases |order|
  {
    hide BuildEntry;
    if i == |order| {
      assert order[..i] == order;
    } else {
      var init := order[..|order| - 1];
      assert init[..i] == order[..i];
      ErrorsStay(m, init, i, info);
    }
  }
}
