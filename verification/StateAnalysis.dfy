/**
 What analysing a document answers, said without the functions that compute it: which documents
 are refused and why, and which value is found for each name.
 */
module StateAnalysis {
  import opened Prelude
  import opened Dom
  import opened DocumentOrder
  import opened StateDocument

  // ---------- Whole paths ----------

  /** The path selects the node at an address: its first step the root itself, the rest below. */
  ghost predicate OnPath(root: Element, p: Path, a: Address) {
    && p.steps != []
    && root.name == p.steps[0].name && root.ns == p.steps[0].ns && Passes(p.steps[0].test, root.attrs)
    && Selects(root, p.steps[1..], p.target, a)
  }

  /** The first address in document order that the path selects. */
  ghost predicate FirstOnPath(root: Element, p: Path, a: Address) {
    OnPath(root, p, a) && forall b :: OnPath(root, p, b) ==> b == a || Precedes(a, b)
  }

  ghost predicate Finds(root: Element, p: Path, x: string) {
    exists a :: FirstOnPath(root, p, a) && ValueAt(root, p.steps[1..], p.target, a) == x
  }

  /** Evaluating a path, root step included, gives the value of the first node it selects. */
  lemma EvaluateIsFirstSelected(root: Element, p: Path)
    ensures Evaluate(root, p).None? <==> forall a :: !OnPath(root, p, a)
    ensures forall x :: Evaluate(root, p) == Some(x) <==> Finds(root, p, x)
  {
    hide Precedes;
    if p.steps != [] && Matches(p.steps[0], root) {
      GetIsFirstSelected(root, p.steps[1..], p.target);
      if Get(root, p.steps[1..], p.target).Some? {
        var a :| Selects(root, p.steps[1..], p.target, a);
        assert OnPath(root, p, a);
      } else {
        forall a ensures !OnPath(root, p, a) {
          assert !Selects(root, p.steps[1..], p.target, a);
        }
      }
      forall a ensures FirstOnPath(root, p, a) <==> FirstFrom(root, p.steps[1..], p.target, 0, a) {
        assert forall b :: OnPath(root, p, b) <==> Selects(root, p.steps[1..], p.target, b);
      }
    }
  }

  // ---------- Outcomes ----------

  predicate HasRoot(doc: Option<Element>, rootName: string, rootNs: string) {
    doc.Some? && doc.value.name == rootName && doc.value.ns == rootNs
  }

  /** Each outcome of analysing, for every table, document and expected root. */
  lemma AnalyseOutcomes(m: Mapper, doc: Option<Element>, rootName: string, rootNs: string)
    ensures var r := Analyse(m, doc, rootName, rootNs);
            && (r.Success? <==> HasRoot(doc, rootName, rootNs) && AllEvaluable(m))
            && (r == Failure(NullDocument) <==> doc.None?)
            && (r == Failure(WrongRootName) <==> doc.Some? && doc.value.name != rootName)
            && (r == Failure(WrongRootNamespace) <==>
                  doc.Some? && doc.value.name == rootName && doc.value.ns != rootNs)
            && (r == Failure(BadExpression) <==> HasRoot(doc, rootName, rootNs) && !AllEvaluable(m))
  {
    hide Evaluable, ReadAll;
  }

  /** The first node that the name's path selects has this value, which is not empty. */
  ghost predicate ReadsAs(m: Mapper, root: Element, n: string, x: string)
    requires AllEvaluable(m)
  {
    n in m.names && x != "" && Finds(root, PathOf(m, m.names[n]), x)
  }

  /** A name is read with a value exactly when its path first selects a node of that value, and it is not empty. */
  lemma AnalysedValues(m: Mapper, doc: Option<Element>, rootName: string, rootNs: string, n: string, x: string)
    requires HasRoot(doc, rootName, rootNs) && AllEvaluable(m)
    ensures var r := Analyse(m, doc, rootName, rootNs);
            && r.Success?
            && (n in r.value && r.value[n] == x <==> ReadsAs(m, doc.value, n, x))
  {
    hide Evaluable, PathOf, Finds;
    if n in m.names {
      EvaluateIsFirstSelected(doc.value, PathOf(m, m.names[n]));
    }
  }
}
