/**
 When fetching the document fails.  For any table the loader accepts, the only possible errors are
 about the root element, and they arise exactly when the paths in use do not share one.  A failed
 build leaves its unfinished document in the cache.
 */
module BuildErrors {
  import opened Prelude
  import opened Dom
  import opened PathSplitter
  import opened StateDocument
  import opened StateRoundTrip
  import opened StateInfoObject

  /** What the loader guarantees of every table: each path expression is one the splitter accepts. */
  predicate Splits(m: Mapper) {
    forall n :: n in m.names ==> Split(m.names[n]).Ok?
  }

  function PathFor(m: Mapper, n: string): Path
    requires Splits(m) && n in m.names
  {
    Resolve(m, Split(m.names[n]).parts)
  }

  datatype Root = Root(name: string, ns: string)

  /** The root element that a path asks for: none when the path has no element step. */
  function RootOf(p: Path): Option<Root> {
    if p.steps == [] then None else Some(Root(p.steps[0].name, p.steps[0].ns))
  }

  function RootIn(e: Element): Root {
    Root(e.name, e.ns)
  }

  /** All paths with a value to write ask for the root `root`. */
  ghost predicate AskFor(m: Mapper, order: seq<string>, info: Info, root: Root)
    requires Splits(m) && forall n :: n in order ==> n in info && n in m.names
  {
    forall n :: n in order && info[n] != "" ==> RootOf(PathFor(m, n)) == Some(root)
  }

  /** All paths with a value to write have an element step, and agree on a root with a namespace. */
  ghost predicate OneRoot(m: Mapper, order: seq<string>, info: Info)
    requires Splits(m) && forall n :: n in order ==> n in info && n in m.names
  {
    exists root: Root :: root.ns != "" && AskFor(m, order, info, root)
  }

  function BarredFor(m: Mapper, n: string): (barred: seq<bool>)
    requires Splits(m) && n in m.names
    ensures |barred| == |PathFor(m, n).steps|
  {
    Barred(m, Split(m.names[n]).parts)
  }

  /** The write does not get stuck at a prefix without namespace, on the document so far. */
  predicate Passable(doc: Option<Element>, p: Path, barred: seq<bool>)
    requires |barred| == |p.steps|
  {
    p.steps != [] ==>
      Sticks(if doc.Some? then doc.value else EmptyRoot(p.steps[0]), p.steps[1..], barred[1..]).Free?
  }

  /** No write, in its turn, gets stuck at a prefix without namespace. */
  ghost predicate AllPassable(m: Mapper, order: seq<string>, info: Info)
    requires Splits(m) && forall n :: n in order ==> n in info && n in m.names
  {
    order == [] ||
    (var init, name := order[..|order| - 1], order[|order| - 1];
     AllPassable(m, init, info) &&
     (info[name] != "" ==> Passable(Build(m, init, info).doc, PathFor(m, name), BarredFor(m, name))))
  }

  /** The errors of a table whose paths all split. */
  const ROOT_ERRORS := {RootName, RootNamespace, NoElements, NoNamespace}

  lemma WriteSucceedsIff(doc: Option<Element>, p: Path, barred: seq<bool>, v: string)
    requires |barred| == |p.steps|
    ensures var b := Write(doc, p, barred, v);
            && (b.error.None? <==>
                  && p.steps != [] && Passable(doc, p, barred)
                  && (if doc.Some? then RootOf(p) == Some(RootIn(doc.value)) else p.steps[0].ns != ""))
            && (b.error.None? ==> b.doc.Some? && RootOf(p) == Some(RootIn(b.doc.value)))
            && (b.error.Some? ==> b.error.value in ROOT_ERRORS)
            && (b.doc.Some? <==> doc.Some? || p.steps != [])
            && (b.doc.Some? ==> Some(RootIn(b.doc.value)) == if doc.Some? then Some(RootIn(doc.value)) else RootOf(p))
  {
    if p.steps != [] {
      KeepsName(EmptyRoot(p.steps[0]), p.steps[1..], p.target, v);
      if doc.Some? {
        KeepsName(doc.value, p.steps[1..], p.target, v);
      }
    }
  }

  lemma EntryIsWrite(m: Mapper, doc: Option<Element>, name: string, v: string)
    requires Splits(m) && name in m.names
    ensures BuildEntry(m, doc, name, v)
         == if v == "" then Building(doc, None) else Write(doc, PathFor(m, name), BarredFor(m, name), v)
  {
    hide Split, Resolve, Write, Barred;
  }

  /** What the document's root says about the entries written so far. */
  ghost predicate Agrees(m: Mapper, order: seq<string>, info: Info, doc: Option<Element>)
    requires Splits(m) && forall n :: n in order ==> n in info && n in m.names
  {
    && (doc.None? ==> forall n :: n in order ==> info[n] == "")
    && (doc.Some? ==>
          && RootIn(doc.value).ns != "" && AskFor(m, order, info, RootIn(doc.value))
          && exists n :: n in order && info[n] != "")
  }

  lemma EntryAgrees(m: Mapper, order: seq<string>, info: Info, doc: Option<Element>, name: string)
    requires Splits(m) && (forall n :: n in order ==> n in info && n in m.names)
    requires name in info && name in m.names && Agrees(m, order, info, doc)
    ensures var b := BuildEntry(m, doc, name, info[name]);
            && (b.error.None? <==>
                  && OneRoot(m, order + [name], info)
                  && (info[name] != "" ==> Passable(doc, PathFor(m, name), BarredFor(m, name))))
            && (b.error.None? ==> Agrees(m, order + [name], info, b.doc))
            && (b.error.Some? ==> b.error.value in ROOT_ERRORS)
  {
    hide Write, PathFor, BarredFor, RootOf, BuildEntry, Passable, Splits;
    var more := order + [name];
    var b := BuildEntry(m, doc, name, info[name]);
    EntryIsWrite(m, doc, name, info[name]);
    assert forall n :: n in more <==> n in order || n == name;
    if info[name] != "" {
      assert name in more;
      WriteSucceedsIff(doc, PathFor(m, name), BarredFor(m, name), info[name]);
      if b.error.None? {
        assert RootIn(b.doc.value).ns != "" by {
          RootHasNamespace(doc, PathFor(m, name), BarredFor(m, name), info[name]);
        }
        assert AskFor(m, more, info, RootIn(b.doc.value));
      } else if Passable(doc, PathFor(m, name), BarredFor(m, name)) {
        NoCommonRoot(m, order, info, doc, name);
      }
    } else if doc.Some? {
      var n :| n in order && info[n] != "";
      assert n in more && AskFor(m, more, info, RootIn(doc.value));
    } else {
      assert AskFor(m, more, info, Root("", "x"));
    }
  }

  lemma RootHasNamespace(doc: Option<Element>, p: Path, barred: seq<bool>, v: string)
    requires |barred| == |p.steps| && Write(doc, p, barred, v).error.None?
    requires doc.Some? ==> RootIn(doc.value).ns != ""
    ensures Write(doc, p, barred, v).doc.Some? && RootIn(Write(doc, p, barred, v).doc.value).ns != ""
  {
    hide Write;
    WriteSucceedsIff(doc, p, barred, v);
  }

  lemma NoCommonRoot(m: Mapper, order: seq<string>, info: Info, doc: Option<Element>, name: string)
    requires Splits(m) && (forall n :: n in order ==> n in info && n in m.names)
    requires name in info && name in m.names && Agrees(m, order, info, doc) && info[name] != ""
    requires var p := PathFor(m, name);
             p.steps == [] || (if doc.Some? then RootOf(p) != Some(RootIn(doc.value)) else p.steps[0].ns == "")
    ensures !OneRoot(m, order + [name], info)
  {
    hide PathFor, Splits;
    var more := order + [name];
    assert name in more;
    if doc.Some? {
      var n :| n in order && info[n] != "";
      assert n in more;
    }
  }

  /**
   Building fails exactly when the paths with a value to write do not share one root element with a
   namespace, or a write comes to create an element whose prefix stands for no namespace.  No entry
   is missing and no path is malformed.
   */
  lemma {:induction false} BuildFailsIff(m: Mapper, order: seq<string>, info: Info)
    requires Splits(m) && forall n :: n in order ==> n in info && n in m.names
    ensures var b := Build(m, order, info);
            && (b.error.None? <==> OneRoot(m, order, info) && AllPassable(m, order, info))
            && (b.error.None? ==> Agrees(m, order, info, b.doc))
            && (b.error.Some? ==> b.error.value in ROOT_ERRORS)
    decreases |order|
  {
    hide BuildEntry, PathFor, BarredFor, Passable, Agrees, Splits;
    if order == [] {
      NothingAsked(m, info);
    } else {
      var init, name := order[..|order| - 1], order[|order| - 1];
      assert order == init + [name];
      BuildFailsIff(m, init, info);
      if Build(m, init, info).error.None? {
        EntryAgrees(m, init, info, Build(m, init, info).doc, name);
      }
      FewerAsk(m, init, name, info);
    }
  }

  /** Every prefix that a path uses stands for a namespace. */
  predicate AllDeclared(m: Mapper)
    requires Splits(m)
  {
    forall n :: n in m.names ==> AllOpen(BarredFor(m, n))
  }

  lemma {:induction false} DeclaredPasses(m: Mapper, order: seq<string>, info: Info)
    requires Splits(m) && AllDeclared(m) && forall n :: n in order ==> n in info && n in m.names
    ensures AllPassable(m, order, info)
    decreases |order|
  {
    hide PathFor, BarredFor, Splits;
    if order != [] {
      var init, name := order[..|order| - 1], order[|order| - 1];
      DeclaredPasses(m, init, info);
      var p, barred, doc := PathFor(m, name), BarredFor(m, name), Build(m, init, info).doc;
      if p.steps != [] {
        NothingBars(if doc.Some? then doc.value else EmptyRoot(p.steps[0]), p.steps[1..], barred[1..]);
      }
    }
  }

  /** With all prefixes declared, only the root matters. */
  lemma DeclaredBuildFailsIff(m: Mapper, order: seq<string>, info: Info)
    requires Splits(m) && AllDeclared(m) && forall n :: n in order ==> n in info && n in m.names
    ensures Build(m, order, info).error.None? <==> OneRoot(m, order, info)
  {
    hide Build, OneRoot, AllPassable, Splits, AllDeclared;
    BuildFailsIff(m, order, info);
    DeclaredPasses(m, order, info);
  }

  lemma NothingAsked(m: Mapper, info: Info)
    requires Splits(m)
    ensures OneRoot(m, [], info) && Agrees(m, [], info, None)
  {
    assert AskFor(m, [], info, Root("", "x"));
  }

  lemma FewerAsk(m: Mapper, init: seq<string>, name: string, info: Info)
    requires Splits(m) && forall n :: n in init + [name] ==> n in info && n in m.names
    requires forall n :: n in init ==> n in info && n in m.names
    ensures OneRoot(m, init + [name], info) ==> OneRoot(m, init, info)
  {
    if OneRoot(m, init + [name], info) {
      var root: Root :| root.ns != "" && AskFor(m, init + [name], info, root);
      assert forall n :: n in init ==> n in init + [name];
      assert AskFor(m, init, info, root);
    }
  }

  /**
   Over every run of an object, whatever its table says: its names stay within the table, and
   fetching never meets a missing entry or a malformed path.
   */
  lemma {:induction false} OnlyRootErrors(m: Mapper, rootName: string, rootNs: string, run: seq<Cell>, i: nat,
                                          order: seq<string>)
    requires Splits(m) && IsRun(m, rootName, rootNs, run) && i < |run| && Visits(order, run[i].info)
    ensures run[i].info.Keys <= m.names.Keys
    ensures var error := GetDocumentStep(m, run[i], order).error;
            error.Some? ==> error.value in ROOT_ERRORS
  {
    hide Splits;
    KeysStay(m, rootName, rootNs, run, i);
    BuildFailsIff(m, order, run[i].info);
  }

  lemma {:induction false} KeysStay(m: Mapper, rootName: string, rootNs: string, run: seq<Cell>, i: nat)
    requires IsRun(m, rootName, rootNs, run) && i < |run|
    ensures run[i].info.Keys <= m.names.Keys
  {
    hide Analyse, GetDocumentStep, Starts, Coherent;
    if i == 0 {
      StartIsCoherent(m, rootName, rootNs, run[0]);
      CoherentKeys(m, rootName, rootNs, run[0]);
    } else {
      KeysStay(m, rootName, rootNs, run, i - 1);
      assert SetsInfo(m, run[i - 1], run[i - 1 + 1]) || GetsDocument(m, run[i - 1], run[i - 1 + 1]);
    }
  }

  lemma CoherentKeys(m: Mapper, rootName: string, rootNs: string, c: Cell)
    requires Coherent(m, rootName, rootNs, c)
    ensures c.info.Keys <= m.names.Keys
  {
  }

  // ---------- What a failed build leaves behind ----------

  /** The first value to write is that of `order[k]`. */
  predicate IsFirstGiven(order: seq<string>, info: Info, k: nat)
    requires forall n :: n in order ==> n in info
  {
    k < |order| && info[order[k]] != "" && forall j :: 0 <= j < k ==> info[order[j]] == ""
  }

  /** The first path with a value to write has an element step. */
  ghost predicate StartsWithRoot(m: Mapper, order: seq<string>, info: Info)
    requires Splits(m) && forall n :: n in order ==> n in info && n in m.names
  {
    exists k: nat :: IsFirstGiven(order, info, k) && PathFor(m, order[k]).steps != []
  }

  lemma FirstGivenStays(m: Mapper, init: seq<string>, name: string, info: Info)
    requires Splits(m) && forall n :: n in init + [name] ==> n in info && n in m.names
    requires forall n :: n in init ==> n in info && n in m.names
    ensures (exists n :: n in init && info[n] != "") ==>
              (StartsWithRoot(m, init + [name], info) <==> StartsWithRoot(m, init, info))
    ensures (forall n :: n in init ==> info[n] == "") ==>
              (StartsWithRoot(m, init + [name], info) <==> info[name] != "" && PathFor(m, name).steps != [])
  {
    hide PathFor, Splits;
    var more := init + [name];
    assert more[|init|] == name && forall j :: 0 <= j < |init| ==> more[j] == init[j];
    if n :| n in init && info[n] != "" {
      var j :| 0 <= j < |init| && init[j] == n;
      assert forall k: nat :: IsFirstGiven(more, info, k) ==> k <= j;
      assert forall k: nat :: k <= j ==> (IsFirstGiven(more, info, k) <==> IsFirstGiven(init, info, k));
      assert forall k: nat :: IsFirstGiven(init, info, k) ==> k <= j;
    } else {
      assert info[name] != "" ==> IsFirstGiven(more, info, |init|);
      assert forall k: nat :: IsFirstGiven(more, info, k) ==> k == |init|;
    }
  }

  /** Building leaves a document, finished or not, exactly when the first path to write has an element step. */
  lemma {:induction false} LeavesDocumentIff(m: Mapper, order: seq<string>, info: Info)
    requires Splits(m) && forall n :: n in order ==> n in info && n in m.names
    ensures var b := Build(m, order, info);
            && (b.doc.Some? <==> StartsWithRoot(m, order, info))
            && (b.doc.None? && b.error.None? <==> forall n :: n in order ==> info[n] == "")
    decreases |order|
  {
    hide BuildEntry, PathFor, BarredFor, Splits, StartsWithRoot;
    if order == [] {
      NothingStarts(m, info);
    } else {
      var init, name := order[..|order| - 1], order[|order| - 1];
      assert order == init + [name];
      LeavesDocumentIff(m, init, info);
      FirstGivenStays(m, init, name, info);
      var before := Build(m, init, info);
      if before.error.None? {
        EntryLeaves(m, before.doc, name, info[name]);
      }
      assert forall n :: n in order <==> n in init || n == name;
    }
  }

  lemma NothingStarts(m: Mapper, info: Info)
    requires Splits(m)
    ensures !StartsWithRoot(m, [], info)
  {
  }

  lemma EntryLeaves(m: Mapper, doc: Option<Element>, name: string, v: string)
    requires Splits(m) && name in m.names
    ensures var b := BuildEntry(m, doc, name, v);
            && (b.doc.Some? <==> doc.Some? || (v != "" && PathFor(m, name).steps != []))
            && (b.doc.None? && b.error.None? <==> doc.None? && v == "")
  {
    hide Write, PathFor, BarredFor, BuildEntry;
    EntryIsWrite(m, doc, name, v);
    WriteSucceedsIff(doc, PathFor(m, name), BarredFor(m, name), v);
  }

  /**
   An unfinished document is handed out, a fetch failing and the next one returning what was left
   without an error, exactly when building fails and the first path to write has an element step.
   */
  lemma HalfDocumentIff(m: Mapper, info: Info, order: seq<string>, order': seq<string>)
    requires Splits(m) && info.Keys <= m.names.Keys && Visits(order, info) && Visits(order', info)
    ensures var first := GetDocumentStep(m, Cell(info, None), order);
            var next := GetDocumentStep(m, Cell(info, first.doc), order');
            && (first.error.Some? && next == Building(first.doc, None) && next.doc.Some? <==>
                  !(OneRoot(m, order, info) && AllPassable(m, order, info)) && StartsWithRoot(m, order, info))
  {
    hide Build, OneRoot, AllPassable, StartsWithRoot, Splits;
    BuildFailsIff(m, order, info);
    LeavesDocumentIff(m, order, info);
  }

  /**
   For any two names of a table that ask for different roots: fetching fails with the first value
   written or its root made, the half-built document stays cached, and the next fetch hands it out
   without an error although the second value is not in it.
   */
  lemma HalfDocumentStaysCached(m: Mapper, a: string, b: string, v: string, w: string)
    requires Splits(m) && a in m.names && b in m.names && v != "" && w != ""
    requires RootOf(PathFor(m, a)).Some? && RootOf(PathFor(m, b)) != RootOf(PathFor(m, a))
    ensures var c := Cell(map[a := v, b := w], None);
            var first := GetDocumentStep(m, c, [a, b]);
            && first.error.Some? && first.doc.Some?
            && GetDocumentStep(m, Cell(c.info, first.doc), [a, b]) == Building(first.doc, None)
            && Evaluate(first.doc.value, PathFor(m, b)) == None
  {
    hide PathFor, BarredFor, Write, BuildEntry, Splits;
    var info := map[a := v, b := w];
    EntryIsWrite(m, None, a, v);
    var half := BuildEntry(m, None, a, v);
    WriteSucceedsIff(None, PathFor(m, a), BarredFor(m, a), v);
    EntryIsWrite(m, half.doc, b, w);
    WriteSucceedsIff(half.doc, PathFor(m, b), BarredFor(m, b), w);
    assert [a, b][..1] == [a] && [a][..0] == [];
    assert Build(m, [], info) == Building(None, None);
    assert Build(m, [a], info) == half;
    assert Build(m, [a, b], info) == if half.error.Some? then half else BuildEntry(m, half.doc, b, w);
  }
}
