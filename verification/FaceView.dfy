/**
 The faces that a whole document holds, whatever else is in it, and what writing does to them: the
 face entries act on them as module FaceEntries says, all other entries leave them alone.
 */
module FaceView {
  import opened Prelude
  import opened Dom
  import opened Interference
  import opened FaceEntries

  predicate IsBml(bml: string, n: Node) {
    n.Elem? && n.ns == bml && n.name == "bml"
  }

  predicate IsFace(bml: string, n: Node) {
    n.Elem? && n.ns == bml && n.name == "face"
  }

  /** The attributes of the faces among some children. */
  function FacesAmong(bml: string, kids: seq<Node>): Faces {
    if kids == [] then []
    else if IsFace(bml, kids[0]) then [kids[0].attrs] + FacesAmong(bml, kids[1..])
    else FacesAmong(bml, kids[1..])
  }

  /** The faces of the first `bml` child. */
  function FacesBelow(bml: string, kids: seq<Node>): Faces {
    if kids == [] then []
    else if IsBml(bml, kids[0]) then FacesAmong(bml, kids[0].kids)
    else FacesBelow(bml, kids[1..])
  }

  predicate NoBml(bml: string, kids: seq<Node>) {
    forall i :: 0 <= i < |kids| ==> !IsBml(bml, kids[i])
  }

  predicate OneBml(bml: string, kids: seq<Node>) {
    forall i, j :: 0 <= i < j < |kids| ==> !(IsBml(bml, kids[i]) && IsBml(bml, kids[j]))
  }

  function FaceSteps(bml: string, test: Test): seq<Step> {
    [Step(bml, "bml", Any), Step(bml, "face", test)]
  }

  /** What a write does to the `bml` children: it adds one only where there is none. */
  ghost predicate AddsFirst(bml: string, kids: seq<Node>, after: seq<Node>) {
    && |kids| <= |after| <= |kids| + 1
    && (forall i :: 0 <= i < |kids| ==> (IsBml(bml, after[i]) <==> IsBml(bml, kids[i])))
    && (|after| > |kids| && IsBml(bml, after[|kids|]) ==> NoBml(bml, kids))
  }

  lemma AddsFirstCons(bml: string, kid: Node, kids: seq<Node>, after: seq<Node>)
    requires AddsFirst(bml, kids, after)
    requires !IsBml(bml, kid) || (forall i :: |kids| <= i < |after| ==> !IsBml(bml, after[i]))
    ensures AddsFirst(bml, [kid] + kids, [kid] + after)
  {
  }

  // ---------- Face entries ----------

  lemma {:induction false} PutAmong(bml: string, kids: seq<Node>, test: Test, a: string, v: string)
    ensures FacesAmong(bml, PutKids(kids, [Step(bml, "face", test)], Attribute(a), v))
         == PutFace(FacesAmong(bml, kids), test, a, v)
  {
    var p, t := [Step(bml, "face", test)], Attribute(a);
    assert p[1..] == [];
    var after := PutKids(kids, p, t, v);
    if kids == [] {
      assert after[1..] == [];
    } else if Matches(p[0], kids[0]) {
      assert after[0] == PutTarget(kids[0], t, v) && after[1..] == kids[1..];
      assert FacesAmong(bml, kids)[1..] == FacesAmong(bml, kids[1..]);
    } else {
      PutAmong(bml, kids[1..], test, a, v);
      assert after[0] == kids[0] && after[1..] == PutKids(kids[1..], p, t, v);
      if IsFace(bml, kids[0]) {
        assert FacesAmong(bml, kids)[1..] == FacesAmong(bml, kids[1..]);
      }
    }
  }

  /** Writing a face entry writes the faces, and keeps the document to one `bml` child. */
  lemma {:induction false} PutBelow(bml: string, kids: seq<Node>, test: Test, a: string, v: string)
    ensures var after := PutKids(kids, FaceSteps(bml, test), Attribute(a), v);
            FacesBelow(bml, after) == PutFace(FacesBelow(bml, kids), test, a, v) && AddsFirst(bml, kids, after)
  {
    var p, t := FaceSteps(bml, test), Attribute(a);
    assert p[1..] == [Step(bml, "face", test)];
    var after := PutKids(kids, p, t, v);
    if kids == [] {
      PutAmong(bml, [], test, a, v);
    } else if IsBml(bml, kids[0]) {
      PutAmong(bml, kids[0].kids, test, a, v);
      assert after[0] == kids[0].(kids := PutKids(kids[0].kids, p[1..], t, v)) && after[1..] == kids[1..];
    } else {
      PutBelow(bml, kids[1..], test, a, v);
      assert after == [kids[0]] + PutKids(kids[1..], p, t, v) && kids == [kids[0]] + kids[1..];
      AddsFirstCons(bml, kids[0], kids[1..], PutKids(kids[1..], p, t, v));
    }
  }

  function OrNothing(r: Option<string>): string {
    if r.Some? then r.value else ""
  }

  lemma {:induction false} GetAmong(bml: string, kids: seq<Node>, test: Test, a: string)
    ensures OrNothing(GetKids(kids, [Step(bml, "face", test)], Attribute(a)))
         == GetFace(FacesAmong(bml, kids), test, a)
  {
    var p, t := [Step(bml, "face", test)], Attribute(a);
    assert p[1..] == [];
    if kids != [] {
      GetAmong(bml, kids[1..], test, a);
      if IsFace(bml, kids[0]) {
        assert FacesAmong(bml, kids)[1..] == FacesAmong(bml, kids[1..]);
        assert GetKid(kids[0], p, t) == if Passes(test, kids[0].attrs) then GetTarget(kids[0], t) else None;
      }
    }
  }

  lemma {:induction false} NothingWithoutBml(bml: string, kids: seq<Node>, test: Test, a: string)
    requires NoBml(bml, kids)
    ensures GetKids(kids, FaceSteps(bml, test), Attribute(a)) == None
  {
    if kids != [] {
      assert !IsBml(bml, kids[0]);
      assert forall i :: 0 <= i < |kids| - 1 ==> kids[1..][i] == kids[i + 1];
      NothingWithoutBml(bml, kids[1..], test, a);
    }
  }

  /** Reading a face entry reads the faces. */
  lemma {:induction false} GetBelow(bml: string, kids: seq<Node>, test: Test, a: string)
    requires OneBml(bml, kids)
    ensures OrNothing(GetKids(kids, FaceSteps(bml, test), Attribute(a))) == GetFace(FacesBelow(bml, kids), test, a)
  {
    var p, t := FaceSteps(bml, test), Attribute(a);
    assert p[1..] == [Step(bml, "face", test)];
    if kids != [] {
      assert forall i :: 0 <= i < |kids| - 1 ==> kids[1..][i] == kids[i + 1];
      if IsBml(bml, kids[0]) {
        GetAmong(bml, kids[0].kids, test, a);
        assert GetKid(kids[0], p, t) == GetKids(kids[0].kids, p[1..], t);
        NothingWithoutBml(bml, kids[1..], test, a);
      } else {
        GetBelow(bml, kids[1..], test, a);
      }
    }
  }

  // ---------- Other entries ----------

  /** A path below the root that keeps away from faces. */
  predicate Aside(bml: string, q: seq<Step>, u: Target) {
    if q == [] then u.Attribute?
    else
      !(q[0].ns == bml && q[0].name == "bml") ||
      (q[0].test.Any? && if |q| == 1 then u.Attribute? else !(q[1].ns == bml && q[1].name == "face"))
  }

  lemma {:induction false} AsideAmong(bml: string, kids: seq<Node>, q: seq<Step>, u: Target, v: string)
    requires q != [] && !(q[0].ns == bml && q[0].name == "face")
    ensures FacesAmong(bml, PutKids(kids, q, u, v)) == FacesAmong(bml, kids)
    decreases |kids|
  {
    var after := PutKids(kids, q, u, v);
    if kids == [] {
      assert after[1..] == [];
    } else if Matches(q[0], kids[0]) {
      assert after[1..] == kids[1..];
    } else {
      AsideAmong(bml, kids[1..], q, u, v);
      assert after[0] == kids[0] && after[1..] == PutKids(kids[1..], q, u, v);
    }
  }

  lemma AsideInside(bml: string, e: Element, q: seq<Step>, u: Target, v: string)
    requires q != [] && q[0] == Step(bml, "bml", Any) && Aside(bml, q, u)
    ensures FacesAmong(bml, Put(e, q[1..], u, v).kids) == FacesAmong(bml, e.kids)
  {
    if |q| > 1 {
      AsideAmong(bml, e.kids, q[1..], u, v);
    }
  }

  lemma {:induction false} Outside(bml: string, kids: seq<Node>, q: seq<Step>, u: Target, v: string)
    requires q != [] && !(q[0].ns == bml && q[0].name == "bml")
    ensures var after := PutKids(kids, q, u, v);
            && FacesBelow(bml, after) == FacesBelow(bml, kids) && AddsFirst(bml, kids, after)
            && (forall i :: |kids| <= i < |after| ==> !IsBml(bml, after[i]))
    decreases |kids|
  {
    var after := PutKids(kids, q, u, v);
    if kids == [] {
      assert after[1..] == [];
    } else if Matches(q[0], kids[0]) {
      assert after[1..] == kids[1..];
    } else {
      Outside(bml, kids[1..], q, u, v);
      assert after == [kids[0]] + PutKids(kids[1..], q, u, v) && kids == [kids[0]] + kids[1..];
      AddsFirstCons(bml, kids[0], kids[1..], PutKids(kids[1..], q, u, v));
    }
  }

  lemma {:induction false} Inside(bml: string, kids: seq<Node>, q: seq<Step>, u: Target, v: string)
    requires q != [] && q[0] == Step(bml, "bml", Any) && Aside(bml, q, u)
    ensures var after := PutKids(kids, q, u, v);
            FacesBelow(bml, after) == FacesBelow(bml, kids) && AddsFirst(bml, kids, after)
    decreases |kids|
  {
    hide Aside;
    var after := PutKids(kids, q, u, v);
    if kids == [] {
      AsideInside(bml, Fresh(q[0]), q, u, v);
    } else if IsBml(bml, kids[0]) {
      AsideInside(bml, kids[0], q, u, v);
      assert after[1..] == kids[1..];
    } else {
      Inside(bml, kids[1..], q, u, v);
      assert after == [kids[0]] + PutKids(kids[1..], q, u, v) && kids == [kids[0]] + kids[1..];
      AddsFirstCons(bml, kids[0], kids[1..], PutKids(kids[1..], q, u, v));
    }
  }

  /** Face entries do not disturb what is read along a path aside. */
  lemma FacesDisturbNothing(bml: string, test: Test, a: string, q: seq<Step>, u: Target)
    requires Aside(bml, q, u)
    ensures !Interferes(FaceSteps(bml, test), Attribute(a), q, u)
  {
    var p := FaceSteps(bml, test);
    assert p[1..] == [Step(bml, "face", test)] && p[1..][1..] == [];
    if q != [] && q[1..] != [] {
      assert q[1..][0] == q[1];
    }
  }

  // ---------- Whole documents ----------

  lemma StaysOne(bml: string, kids: seq<Node>, after: seq<Node>)
    requires OneBml(bml, kids) && AddsFirst(bml, kids, after)
    ensures OneBml(bml, after)
  {
  }

  function FacesOf(bml: string, root: Element): Faces {
    FacesBelow(bml, root.kids)
  }

  lemma FaceWrite(bml: string, root: Element, test: Test, a: string, v: string)
    requires OneBml(bml, root.kids)
    ensures var after := Put(root, FaceSteps(bml, test), Attribute(a), v);
            OneBml(bml, after.kids) && FacesOf(bml, after) == PutFace(FacesOf(bml, root), test, a, v)
  {
    PutBelow(bml, root.kids, test, a, v);
    StaysOne(bml, root.kids, PutKids(root.kids, FaceSteps(bml, test), Attribute(a), v));
  }

  lemma AsideWrite(bml: string, root: Element, q: seq<Step>, u: Target, v: string)
    requires OneBml(bml, root.kids) && Aside(bml, q, u)
    ensures var after := Put(root, q, u, v);
            OneBml(bml, after.kids) && FacesOf(bml, after) == FacesOf(bml, root)
  {
    if q != [] {
      if q[0].ns == bml && q[0].name == "bml" {
        Inside(bml, root.kids, q, u, v);
      } else {
        Outside(bml, root.kids, q, u, v);
      }
      StaysOne(bml, root.kids, PutKids(root.kids, q, u, v));
    }
  }
}
