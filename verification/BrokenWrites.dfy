/**
 What a write that fails leaves of the document: which error it is, that root errors change nothing,
 and that a write which breaks off below the root keeps what the paths apart from it read.
 */
module BrokenWrites {
  import opened Prelude
  import opened Dom
  import opened Interference
  import opened PathSyntax
  import opened PathSplitter
  import opened StateDocument
  import opened StateRoundTrip
  import opened StateInfoObject
  import opened BuildErrors

  // ---------- On trees ----------

  /** One barred step: with no child that matches it, a child without attributes and children is left. */
  lemma BarredStep(e: Element, s: Step)
    ensures Sticks(e, [s], [true]).Free? <==> exists i :: 0 <= i < |e.kids| && Matches(s, e.kids[i])
    ensures Sticks(e, [s], [true]).Stuck? ==>
              Sticks(e, [s], [true]).tree == e.(kids := e.kids + [Elem(s.ns, s.name, map[], [])])
  {
    BarredKids(e.kids, s);
  }

  lemma {:induction false} BarredKids(kids: seq<Node>, s: Step)
    ensures SticksKids(kids, [s], [true]).None? <==> exists i :: 0 <= i < |kids| && Matches(s, kids[i])
    ensures SticksKids(kids, [s], [true]).Some? ==>
              SticksKids(kids, [s], [true]).value == kids + [Elem(s.ns, s.name, map[], [])]
  {
    if kids != [] && !Matches(s, kids[0]) {
      BarredKids(kids[1..], s);
      if i :| 0 <= i < |kids| && Matches(s, kids[i]) {
        assert kids[1..][i - 1] == kids[i];
      }
      if i :| 0 <= i < |kids[1..]| && Matches(s, kids[1..][i]) {
        assert kids[i + 1] == kids[1..][i];
      }
      assert [kids[0]] + (kids[1..] + [Elem(s.ns, s.name, map[], [])]) == kids + [Elem(s.ns, s.name, map[], [])];
    }
  }

  /** A write that breaks off changes children only. */
  lemma KeepsItself(e: Element, p: seq<Step>, barred: seq<bool>)
    requires |p| == |barred| && Sticks(e, p, barred).Stuck?
    ensures var tree := Sticks(e, p, barred).tree;
            tree.ns == e.ns && tree.name == e.name && tree.attrs == e.attrs
  {
  }

  lemma {:induction false} BrokenFirstText(kids: seq<Node>, p: seq<Step>, barred: seq<bool>)
    requires |p| == |barred| && p != [] && SticksKids(kids, p, barred).Some?
    ensures FirstText(SticksKids(kids, p, barred).value) == FirstText(kids)
    decreases |kids|
  {
    var after := SticksKids(kids, p, barred).value;
    if kids != [] {
      if Matches(p[0], kids[0]) {
        assert after[1..] == kids[1..];
      } else {
        BrokenFirstText(kids[1..], p, barred);
        assert after[1..] == SticksKids(kids[1..], p, barred).value;
      }
    } else {
      assert after[1..] == [];
    }
  }

  lemma {:induction false} BrokenKid(n: Node, p: seq<Step>, barred: seq<bool>, t: Target, q: seq<Step>, u: Target)
    requires |p| == |barred| && p != [] && q != [] && Matches(p[0], n) && !Interferes(p, t, q, u)
    requires Sticks(n, p[1..], barred[1..]).Stuck?
    ensures GetKid(Sticks(n, p[1..], barred[1..]).tree, q, u) == GetKid(n, q, u)
    decreases |p|, 0, 0
  {
    KeepsItself(n, p[1..], barred[1..]);
    if Matches(q[0], n) {
      assert CanMeet(p[0].test, q[0].test);
      BrokenFrame(n, p[1..], barred[1..], t, q[1..], u);
    }
  }

  lemma {:induction false} BrokenFresh(p: seq<Step>, barred: seq<bool>, t: Target, q: seq<Step>, u: Target)
    requires |p| == |barred| && p != [] && q != [] && !Interferes(p, t, q, u)
    requires Sticks(Fresh(p[0]), p[1..], barred[1..]).Stuck?
    ensures GetKid(Sticks(Fresh(p[0]), p[1..], barred[1..]).tree, q, u) == None
    decreases |p|, 1, 0
  {
    BrokenKid(Fresh(p[0]), p, barred, t, q, u);
    if q[1..] != [] {
      assert Get(Fresh(p[0]), q[1..], u) == GetKids([], q[1..], u);
    }
  }

  lemma BareIsSilent(s: Step, q: seq<Step>, u: Target)
    requires q != []
    ensures GetKid(Bare(s), q, u) == None
  {
    if q[1..] != [] {
      assert Get(Bare(s), q[1..], u) == GetKids([], q[1..], u);
    }
  }

  lemma {:induction false} BrokenKids(
      kids: seq<Node>, p: seq<Step>, barred: seq<bool>, t: Target, q: seq<Step>, u: Target)
    requires |p| == |barred| && p != [] && q != [] && !Interferes(p, t, q, u)
    requires SticksKids(kids, p, barred).Some?
    ensures GetKids(SticksKids(kids, p, barred).value, q, u) == GetKids(kids, q, u)
    decreases |p|, 2, |kids|
  {
    var after := SticksKids(kids, p, barred).value;
    if kids == [] {
      assert after[1..] == [];
      if barred[0] {
        BareIsSilent(p[0], q, u);
      } else {
        BrokenFresh(p, barred, t, q, u);
      }
    } else if Matches(p[0], kids[0]) {
      BrokenKid(kids[0], p, barred, t, q, u);
      assert after[1..] == kids[1..];
    } else {
      BrokenKids(kids[1..], p, barred, t, q, u);
      assert after[1..] == SticksKids(kids[1..], p, barred).value;
    }
  }

  /** On every tree, a write that breaks off leaves the read of a path which the whole write would leave. */
  lemma {:induction false} BrokenFrame(
      e: Element, p: seq<Step>, barred: seq<bool>, t: Target, q: seq<Step>, u: Target)
    requires |p| == |barred| && !Interferes(p, t, q, u) && Sticks(e, p, barred).Stuck?
    ensures Get(Sticks(e, p, barred).tree, q, u) == Get(e, q, u)
    decreases |p|, 3, 0
  {
    if q != [] {
      BrokenKids(e.kids, p, barred, t, q, u);
    } else {
      BrokenFirstText(e.kids, p, barred);
    }
  }

  // ---------- On documents ----------

  /** Each error of a write, and what it leaves. */
  lemma WriteErrors(doc: Option<Element>, p: Path, barred: seq<bool>, v: string)
    requires |barred| == |p.steps|
    ensures var b := Write(doc, p, barred, v);
            && (b.error == Some(NoElements) <==> p.steps == [])
            && (b.error == Some(RootName) <==> p.steps != [] && doc.Some? && doc.value.name != p.steps[0].name)
            && (b.error == Some(RootNamespace) <==>
                  p.steps != [] && doc.Some? && doc.value.name == p.steps[0].name && doc.value.ns != p.steps[0].ns)
            && (b.error.Some? && b.error != Some(NoNamespace) ==> b.doc == doc)
            && (b.error == Some(NoNamespace) && doc.None? && p.steps[0].ns == "" ==>
                  b.doc == Some(Elem("", p.steps[0].name, map[], [])))
  {
    hide Sticks, Put;
  }

  /**
   A step's element has the step's local name and the namespace that its prefix is declared for.  It
   is tested for an attribute exactly when one is named, and for its value when one is given with it.
   */
  lemma StepResolves(m: Mapper, n: string, i: nat)
    requires Splits(m) && n in m.names && i < |Split(m.names[n]).parts.steps|
    ensures var part := Split(m.names[n]).parts.steps[i];
            && i < |PathFor(m, n).steps| && PathFor(m, n).steps[i].name == part.local
            && (part.prefix != "" && part.prefix in m.prefixes ==>
                  PathFor(m, n).steps[i].ns == m.prefixes[part.prefix])
            && (part.prefix == "" || part.prefix !in m.prefixes ==> PathFor(m, n).steps[i].ns == "")
            && (PathFor(m, n).steps[i].test == Any <==> part.att == "")
            && (forall a :: PathFor(m, n).steps[i].test == Has(a) <==> a == part.att != "" && part.val == "")
            && (forall a, w :: PathFor(m, n).steps[i].test == Is(a, w) <==> a == part.att != "" && w == part.val != "")
    ensures PathFor(m, n).target == Content <==> Split(m.names[n]).parts.last == TextContent
    ensures forall a :: PathFor(m, n).target == Attribute(a) <==> Split(m.names[n]).parts.last == AttributeNamed(a)
  {
    hide Split;
  }

  /** A first value whose root has no prefix, or an undeclared one, cannot be written: the bare root is left. */
  lemma UndeclaredRoot(m: Mapper, n: string, v: string)
    requires Splits(m) && n in m.names && v != "" && Split(m.names[n]).parts.steps != []
    requires var prefix := Split(m.names[n]).parts.steps[0].prefix; prefix == "" || prefix !in m.prefixes
    ensures BuildEntry(m, None, n, v)
         == Building(Some(Elem("", Split(m.names[n]).parts.steps[0].local, map[], [])), Some(NoNamespace))
  {
    hide Split, Sticks, Put, Resolve, Barred;
    StepResolves(m, n, 0);
    EntryIsWrite(m, None, n, v);
  }

  /** A step is barred exactly when it has a prefix and that is not declared for a namespace. */
  lemma BarredIff(m: Mapper, n: string, i: nat)
    requires Splits(m) && n in m.names && i < |Split(m.names[n]).parts.steps|
    ensures var prefix := Split(m.names[n]).parts.steps[i].prefix;
            i < |BarredFor(m, n)| &&
            (BarredFor(m, n)[i] <==> prefix != "" && (prefix in m.prefixes ==> m.prefixes[prefix] == ""))
  {
    hide Split;
  }

  /** A child with an undeclared prefix, and none there that matches: it is left bare, and nothing is written. */
  lemma UndeclaredChild(m: Mapper, root: Element, n: string, v: string)
    requires Splits(m) && n in m.names && v != "" && |PathFor(m, n).steps| == 2
    requires root.name == PathFor(m, n).steps[0].name && root.ns == PathFor(m, n).steps[0].ns
    requires var prefix := Split(m.names[n]).parts.steps[1].prefix; prefix != "" && prefix !in m.prefixes
    requires forall i :: 0 <= i < |root.kids| ==> !Matches(PathFor(m, n).steps[1], root.kids[i])
    ensures var s := PathFor(m, n).steps[1];
            BuildEntry(m, Some(root), n, v)
            == Building(Some(root.(kids := root.kids + [Elem(s.ns, s.name, map[], [])])), Some(NoNamespace))
  {
    hide Split, Sticks, Put, BuildEntry;
    BarredIff(m, n, 1);
    EntryIsWrite(m, Some(root), n, v);
    var p, barred := PathFor(m, n), BarredFor(m, n);
    assert p.steps[1..] == [p.steps[1]] && barred[1..] == [true];
    BarredStep(root, p.steps[1]);
  }

  /** An entry that cannot be written leaves what every path apart from its own reads. */
  lemma BrokenEntryKeeps(m: Mapper, root: Element, name: string, v: string, q: Path)
    requires Splits(m) && name in m.names && BuildEntry(m, Some(root), name, v).error.Some?
    requires q.steps != [] && (PathFor(m, name).steps != [] ==> Apart(PathFor(m, name), q))
    ensures var doc := BuildEntry(m, Some(root), name, v).doc;
            doc.Some? && Evaluate(doc.value, q) == Evaluate(root, q)
  {
    hide Sticks, Put, Get, PathFor, BarredFor, BuildEntry, Splits;
    EntryIsWrite(m, Some(root), name, v);
    var p, barred := PathFor(m, name), BarredFor(m, name);
    WriteErrors(Some(root), p, barred, v);
    if p.steps != [] && Sticks(root, p.steps[1..], barred[1..]).Stuck? {
      KeepsItself(root, p.steps[1..], barred[1..]);
      BrokenFrame(root, p.steps[1..], barred[1..], p.target, q.steps[1..], q.target);
    }
  }

  /**
   When building breaks off at an entry, whatever was built before it and is read along a path apart
   from that entry's is still read from the document that is left.
   */
  lemma BrokenBuildKeeps(m: Mapper, order: seq<string>, info: Info, k: nat, q: Path)
    requires Splits(m) && (forall n :: n in order ==> n in info && n in m.names) && k < |order| && q.steps != []
    requires Build(m, order[..k], info).error.None? && Build(m, order[..k], info).doc.Some?
    requires Build(m, order[..k + 1], info).error.Some?
    requires PathFor(m, order[k]).steps != [] ==> Apart(PathFor(m, order[k]), q)
    ensures var before, left := Build(m, order[..k], info).doc, Build(m, order, info).doc;
            left.Some? && Evaluate(left.value, q) == Evaluate(before.value, q)
  {
    hide BuildEntry, PathFor, Splits, Apart, Evaluate;
    ErrorsStay(m, order, k + 1, info);
    assert order[..k + 1][..k] == order[..k];
    BrokenEntryKeeps(m, Build(m, order[..k], info).doc.value, order[k], info[order[k]], q);
  }
}
