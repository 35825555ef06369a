/**
 The builder's walk: a current element moves down from the root, one step of the path at a time,
 and the tree is changed in place under it.  A position in the tree stands for the
 reference to that element.  The walk is proved to compute `Dom.Put`.
 */
module DomWriter {
  import opened Prelude
  import opened Dom

  type Position = seq<nat>

  predicate Reaches(e: Element, at: Position) {
    at == [] ||
    (at[0] < |e.kids| && e.kids[at[0]].Elem? && Reaches(e.kids[at[0]], at[1..]))
  }

  function At(e: Element, at: Position): Element
    requires Reaches(e, at)
  {
    if at == [] then e else At(e.kids[at[0]], at[1..])
  }

  /** The tree with the element at a position replaced. */
  function Replace(e: Element, at: Position, n: Element): Element
    requires Reaches(e, at)
  {
    if at == [] then n
    else e.(kids := e.kids[at[0] := Replace(e.kids[at[0]], at[1..], n)])
  }

  lemma {:induction false} ReplaceThenAt(e: Element, at: Position, m: Element, n: Element)
    requires Reaches(e, at)
    ensures Reaches(Replace(e, at, m), at)
    ensures At(Replace(e, at, m), at) == m
    ensures Replace(Replace(e, at, m), at, n) == Replace(e, at, n)
  {
    if at != [] {
      ReplaceThenAt(e.kids[at[0]], at[1..], m, n);
    }
  }

  lemma {:induction false} OneDeeper(e: Element, at: Position, i: nat, n: Element)
    requires Reaches(e, at) && i < |At(e, at).kids| && At(e, at).kids[i].Elem?
    ensures Reaches(e, at + [i]) && At(e, at + [i]) == At(e, at).kids[i]
    ensures Replace(e, at + [i], n)
         == Replace(e, at, At(e, at).(kids := At(e, at).kids[i := n]))
  {
    if at == [] {
      assert at + [i] == [i] && [i][1..] == [];
    } else {
      OneDeeper(e.kids[at[0]], at[1..], i, n);
      assert (at + [i])[1..] == at[1..] + [i];
    }
  }

  /** The first matching child's position, or the number of children when none matches. */
  ghost predicate IsFirstMatch(kids: seq<Node>, s: Step, k: nat) {
    k <= |kids| && (k < |kids| ==> Matches(s, kids[k])) &&
    forall i :: 0 <= i < k ==> !Matches(s, kids[i])
  }

  lemma {:induction false} PutAtFirstMatch(
      kids: seq<Node>, p: seq<Step>, t: Target, v: string, k: nat)
    requires p != [] && IsFirstMatch(kids, p[0], k)
    ensures PutKids(kids, p, t, v)
         == if k < |kids| then kids[k := Put(kids[k], p[1..], t, v)]
            else kids + [Put(Fresh(p[0]), p[1..], t, v)]
    decreases |kids|
  {
    if kids != [] && k > 0 {
      assert IsFirstMatch(kids[1..], p[0], k - 1);
      PutAtFirstMatch(kids[1..], p, t, v, k - 1);
    }
  }

  /** The children with a given local name and namespace, in document order. */
  method ChildrenByLocalNameNS(e: Element, name: string, ns: string) returns (found: seq<nat>)
    ensures forall i: nat :: i in found <==> i < |e.kids| && SameName(Step(ns, name, Any), e.kids[i])
    ensures forall j :: 0 <= j < |found| ==>
              found[j] < |e.kids| && SameName(Step(ns, name, Any), e.kids[found[j]])
    ensures forall j, k :: 0 <= j < k < |found| ==> found[j] < found[k]
  {
    found := [];
    for i := 0 to |e.kids|
      invariant forall k: nat :: k in found <==> k < i && SameName(Step(ns, name, Any), e.kids[k])
      invariant forall j :: 0 <= j < |found| ==>
                  found[j] < i && SameName(Step(ns, name, Any), e.kids[found[j]])
      invariant forall j, k :: 0 <= j < k < |found| ==> found[j] < found[k]
    {
      if SameName(Step(ns, name, Any), e.kids[i]) {
        found := found + [i];
      }
    }
  }

  /** The search for an existing child: by name first, then by the step's attribute test. */
  method FindChild(e: Element, s: Step) returns (k: nat)
    ensures IsFirstMatch(e.kids, s, k)
  {
    var sameName := ChildrenByLocalNameNS(e, s.name, s.ns);
    assert forall i :: 0 <= i < |e.kids| && Matches(s, e.kids[i]) ==> i in sameName;
    if s.test.Any? {
      if |sameName| > 0 {
        assert forall j :: 0 < j < |sameName| ==> sameName[0] < sameName[j];
        return sameName[0];
      }
    } else {
      for j := 0 to |sameName|
        invariant forall i :: 0 <= i < j ==> !Matches(s, e.kids[sameName[i]])
      {
        var c := e.kids[sameName[j]];
        if s.test.att in c.attrs && (s.test.Has? || s.test.val == c.attrs[s.test.att]) {
          forall i: nat | i < sameName[j] ensures !Matches(s, e.kids[i]) {
            if i in sameName {
              var m :| 0 <= m < |sameName| && sameName[m] == i;
            }
          }
          return sameName[j];
        }
      }
    }
    return |e.kids|;
  }

  lemma {:induction false} SticksAtFirstMatch(kids: seq<Node>, p: seq<Step>, barred: seq<bool>, k: nat)
    requires |p| == |barred| && p != [] && IsFirstMatch(kids, p[0], k)
    ensures SticksKids(kids, p, barred)
         == if k == |kids| && barred[0] then Some(kids + [Bare(p[0])])
            else
              var child := Sticks(if k < |kids| then kids[k] else Fresh(p[0]), p[1..], barred[1..]);
              if child.Free? then None
              else if k < |kids| then Some(kids[k := child.tree])
              else Some(kids + [child.tree])
    decreases |kids|
  {
    if kids != [] && k > 0 {
      assert IsFirstMatch(kids[1..], p[0], k - 1);
      SticksAtFirstMatch(kids[1..], p, barred, k - 1);
    }
    var child := Sticks(if k < |kids| then kids[k] else Fresh(p[0]), p[1..], barred[1..]);
    if k < |kids| && child.Stuck? {
      assert kids[k := child.tree] == if k > 0 then [kids[0]] + kids[1..][k - 1 := child.tree]
                                      else [child.tree] + kids[1..];
    } else if kids == [] {
      assert forall x: Node :: kids + [x] == [x];
    } else {
      assert forall x: Node :: [kids[0]] + (kids[1..] + [x]) == kids + [x];
    }
  }

  /** What getting stuck below a position means for the whole tree. */
  function Lifted(tree: Element, at: Position, below: Stuckness): Stuckness
    requires Reaches(tree, at)
  {
    if below.Free? then Free else Stuck(Replace(tree, at, below.tree))
  }

  /**
   Writes a value along a path below the root, moving a current position down the tree.  Creating
   an element for a barred step breaks the write off.
   */
  method WriteAlongPath(root: Element, p: seq<Step>, barred: seq<bool>, t: Target, v: string)
      returns (tree: Element, stuck: bool)
    requires |p| == |barred|
    ensures stuck <==> Sticks(root, p, barred).Stuck?
    ensures tree == if stuck then Sticks(root, p, barred).tree else Put(root, p, t, v)
  {
    tree := root;
    var current: Position := [];
    for i := 0 to |p|
      invariant Reaches(tree, current)
      invariant Replace(tree, current, Put(At(tree, current), p[i..], t, v)) == Put(root, p, t, v)
      invariant Lifted(tree, current, Sticks(At(tree, current), p[i..], barred[i..])) == Sticks(root, p, barred)
    {
      var e := At(tree, current);
      var k := FindChild(e, p[i]);
      OneStep(tree, current, p, barred, t, v, i, k);
      if k == |e.kids| {
        if barred[i] {
          tree := Replace(tree, current, e.(kids := e.kids + [Bare(p[i])]));
          return tree, true;
        }
        tree := Replace(tree, current, e.(kids := e.kids + [Fresh(p[i])]));
      }
      current := current + [k];
    }
    tree := Replace(tree, current, PutTarget(At(tree, current), t, v));
    stuck := false;
  }

  /** The tree with a child there to go down to. */
  function Grown(tree: Element, at: Position, s: Step, k: nat): Element
    requires Reaches(tree, at) && k <= |At(tree, at).kids|
  {
    var e := At(tree, at);
    if k < |e.kids| then tree else Replace(tree, at, e.(kids := e.kids + [Fresh(s)]))
  }

  /** One turn of the walk: what is still to be written is the same from the child as from its parent. */
  lemma OneStep(tree: Element, at: Position, p: seq<Step>, barred: seq<bool>, t: Target, v: string, i: nat, k: nat)
    requires Reaches(tree, at) && i < |p| == |barred| && IsFirstMatch(At(tree, at).kids, p[i], k)
    ensures var e := At(tree, at);
            k == |e.kids| && barred[i] ==>
              Lifted(tree, at, Sticks(e, p[i..], barred[i..]))
              == Stuck(Replace(tree, at, e.(kids := e.kids + [Bare(p[i])])))
    ensures var grown := Grown(tree, at, p[i], k);
            && Reaches(grown, at + [k])
            && Replace(grown, at + [k], Put(At(grown, at + [k]), p[i + 1..], t, v))
            == Replace(tree, at, Put(At(tree, at), p[i..], t, v))
            && (k < |At(tree, at).kids| || !barred[i] ==>
                  Lifted(grown, at + [k], Sticks(At(grown, at + [k]), p[i + 1..], barred[i + 1..]))
                  == Lifted(tree, at, Sticks(At(tree, at), p[i..], barred[i..])))
  {
    hide Sticks;
    var e := At(tree, at);
    SticksUnfolds(e, p, barred, i);
    PutAtFirstMatch(e.kids, p[i..], t, v, k);
    SticksAtFirstMatch(e.kids, p[i..], barred[i..], k);
    assert p[i..][1..] == p[i + 1..] && barred[i..][1..] == barred[i + 1..];
    var grown := Grown(tree, at, p[i], k);
    Goes(tree, at, p[i], k, Put(if k < |e.kids| then e.kids[k] else Fresh(p[i]), p[i + 1..], t, v));
    var child := Sticks(At(grown, at + [k]), p[i + 1..], barred[i + 1..]);
    if child.Stuck? {
      Goes(tree, at, p[i], k, child.tree);
    }
  }

  lemma SticksUnfolds(e: Element, p: seq<Step>, barred: seq<bool>, i: nat)
    requires i < |p| == |barred|
    ensures Sticks(e, p[i..], barred[i..]) ==
              var kids := SticksKids(e.kids, p[i..], barred[i..]);
              if kids.None? then Free else Stuck(e.(kids := kids.value))
  {
  }

  /** Replacing the child gone to is replacing it among its parent's children. */
  lemma Goes(tree: Element, at: Position, s: Step, k: nat, n: Element)
    requires Reaches(tree, at) && k <= |At(tree, at).kids| && (k < |At(tree, at).kids| ==> At(tree, at).kids[k].Elem?)
    ensures var grown, e := Grown(tree, at, s, k), At(tree, at);
            && Reaches(grown, at + [k])
            && At(grown, at + [k]) == (if k < |e.kids| then e.kids[k] else Fresh(s))
            && Replace(grown, at + [k], n)
            == Replace(tree, at, e.(kids := if k < |e.kids| then e.kids[k := n] else e.kids + [n]))
  {
    var grown, e := Grown(tree, at, s, k), At(tree, at);
    if k == |e.kids| {
      var more := e.(kids := e.kids + [Fresh(s)]);
      ReplaceThenAt(tree, at, more, e.(kids := e.kids + [n]));
      assert more.kids[k := n] == e.kids + [n];
    }
    OneDeeper(grown, at, k, n);
  }
}
