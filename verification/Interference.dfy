/**
 When writing along one path can change what another path reads.  `Interferes` is computed from
 the two paths alone; `FrameIffSilent` shows that it is exactly right over all trees and values.
 */
module Interference {
  import opened Prelude
  import opened Dom
  import opened DomLaws

  predicate Mentions(test: Test, a: string) {
    !test.Any? && test.att == a
  }

  /** Some attribute map passes both tests. */
  predicate CanMeet(x: Test, y: Test) {
    !(x.Is? && y.Is? && x.att == y.att && x.val != y.val)
  }

  /** The write ends on the child itself and changes whether the child passes the reader's test. */
  predicate Rematches(s: Step, r: Step, rest: seq<Step>, t: Target) {
    rest == [] && t.Attribute? && Mentions(r.test, t.att) &&
    (r.test.Is? || !Mentions(s.test, t.att))
  }

  /** Creating the child for `s` already makes the attribute that the reader asks for. */
  predicate Reveals(s: Step, r: Step, readRest: seq<Step>, u: Target) {
    readRest == [] && u.Attribute? &&
    u.att in TestAttrs(s.test) && Passes(r.test, TestAttrs(s.test))
  }

  /** Writing along (p, t) can change what (q, u) reads, on some tree. */
  predicate Interferes(p: seq<Step>, t: Target, q: seq<Step>, u: Target)
    decreases |p|
  {
    if p == [] then
      if t.Attribute? then q == [] && u == t else q != [] || u == t
    else
      q != [] && p[0].ns == q[0].ns && p[0].name == q[0].name &&
      (|| Rematches(p[0], q[0], p[1..], t)
       || (CanMeet(p[0].test, q[0].test) && Interferes(p[1..], t, q[1..], u))
       || Reveals(p[0], q[0], q[1..], u))
  }

  // ---------- No interference: every read is kept ----------

  lemma {:induction false} FirstTextKept(kids: seq<Node>, p: seq<Step>, t: Target, v: string)
    requires p != []
    ensures FirstText(PutKids(kids, p, t, v)) == FirstText(kids)
    decreases |kids|
  {
    if kids != [] {
      if Matches(p[0], kids[0]) {
        assert PutKids(kids, p, t, v)[1..] == kids[1..];
      } else {
        FirstTextKept(kids[1..], p, t, v);
        assert PutKids(kids, p, t, v)[1..] == PutKids(kids[1..], p, t, v);
      }
    }
  }

  /** A write keeps whether an element passes the reader's first test. */
  lemma MatchKept(n: Node, p: seq<Step>, t: Target, v: string, r: Step)
    requires p != [] && Matches(p[0], n)
    requires r.ns == p[0].ns && r.name == p[0].name && !Rematches(p[0], r, p[1..], t)
    ensures Matches(r, Put(n, p[1..], t, v)) == Matches(r, n)
  {
    if |p| > 1 {
      assert Put(n, p[1..], t, v).attrs == n.attrs;
    }
  }

  lemma {:induction false} KidKept(
      n: Node, p: seq<Step>, t: Target, v: string, q: seq<Step>, u: Target)
    requires p != [] && q != [] && Matches(p[0], n) && !Interferes(p, t, q, u)
    ensures GetKid(Put(n, p[1..], t, v), q, u) == GetKid(n, q, u)
    decreases |p|, 0, 0
  {
    if p[0].ns == q[0].ns && p[0].name == q[0].name {
      MatchKept(n, p, t, v, q[0]);
      if Matches(q[0], n) {
        assert CanMeet(p[0].test, q[0].test);
        Frame(n, p[1..], t, v, q[1..], u);
      }
    }
  }

  lemma {:induction false} FreshSilent(p: seq<Step>, t: Target, v: string, q: seq<Step>, u: Target)
    requires p != [] && q != [] && !Interferes(p, t, q, u)
    ensures GetKid(Put(Fresh(p[0]), p[1..], t, v), q, u) == None
    decreases |p|, 1, 0
  {
    KidKept(Fresh(p[0]), p, t, v, q, u);
    if q[1..] != [] {
      assert Get(Fresh(p[0]), q[1..], u) == GetKids([], q[1..], u);
    }
  }

  lemma {:induction false} FrameKids(
      kids: seq<Node>, p: seq<Step>, t: Target, v: string, q: seq<Step>, u: Target)
    requires p != [] && q != [] && !Interferes(p, t, q, u)
    ensures GetKids(PutKids(kids, p, t, v), q, u) == GetKids(kids, q, u)
    decreases |p|, 2, |kids|
  {
    var after := PutKids(kids, p, t, v);
    if kids == [] {
      FreshSilent(p, t, v, q, u);
      assert after[1..] == [];
    } else if Matches(p[0], kids[0]) {
      KidKept(kids[0], p, t, v, q, u);
      assert after[1..] == kids[1..];
    } else {
      FrameKids(kids[1..], p, t, v, q, u);
      assert after[1..] == PutKids(kids[1..], p, t, v);
    }
  }

  /** On every tree, a write along (p, t) leaves the read of a path it cannot interfere with. */
  lemma {:induction false} Frame(
      e: Element, p: seq<Step>, t: Target, v: string, q: seq<Step>, u: Target)
    requires !Interferes(p, t, q, u)
    ensures Get(Put(e, p, t, v), q, u) == Get(e, q, u)
    decreases |p|, 3, 0
  {
    if p != [] && q != [] {
      FrameKids(e.kids, p, t, v, q, u);
    } else if p != [] {
      FirstTextKept(e.kids, p, t, v);
    }
  }

  // ---------- Interference: some tree and value show it ----------

  /** Children on which the path (q, u) reads something. */
  function Sample(q: seq<Step>, u: Target): (kids: seq<Node>)
    requires q != []
    ensures GetKids(kids, q, u).Some?
  {
    var last := q[|q| - 1].test;
    var v := if u.Attribute? && last.Is? && last.att == u.att then last.val else "x";
    PutGetKids([], q, u, v);
    PutKids([], q, u, v)
  }

  /** Attributes that pass two compatible tests. */
  function Both(x: Test, y: Test): (attrs: map<string, string>)
    requires CanMeet(x, y)
    ensures Passes(x, attrs) && Passes(y, attrs)
  {
    if x.Is? then TestAttrs(y) + TestAttrs(x) else TestAttrs(x) + TestAttrs(y)
  }

  function WithAttr(attrs: map<string, string>, a: string): map<string, string> {
    if a in attrs then attrs else attrs[a := "x"]
  }

  /** An element on which (q, u) reads something, carrying at least the given attributes. */
  function Stocked(s: Step, attrs: map<string, string>, q: seq<Step>, u: Target): (e: Element)
    ensures e.ns == s.ns && e.name == s.name && Get(e, q, u).Some?
    ensures e.attrs == if q == [] && u.Attribute? then WithAttr(attrs, u.att) else attrs
  {
    if q != [] then Elem(s.ns, s.name, attrs, Sample(q, u))
    else if u.Content? then Elem(s.ns, s.name, attrs, [Text("x")])
    else Elem(s.ns, s.name, WithAttr(attrs, u.att), [])
  }

  lemma OneKid(n: Node, p: seq<Step>, t: Target, v: string, q: seq<Step>, u: Target)
    requires p != [] && q != [] && Matches(p[0], n)
    requires GetKid(Put(n, p[1..], t, v), q, u) != GetKid(n, q, u)
    ensures GetKids(PutKids([n], p, t, v), q, u) != GetKids([n], q, u)
  {
    var after := Put(n, p[1..], t, v);
    assert PutKids([n], p, t, v) == [after];
    assert [n][1..] == [] && [after][1..] == [];
  }

  lemma DisturbByMatch(p: seq<Step>, t: Target, q: seq<Step>, u: Target)
      returns (n: Node, v: string)
    requires p != [] && q != [] && p[0].ns == q[0].ns && p[0].name == q[0].name
    requires Rematches(p[0], q[0], p[1..], t)
    ensures Matches(p[0], n) && GetKid(Put(n, p[1..], t, v), q, u) != GetKid(n, q, u)
  {
    var s, r, b := p[0].test, q[0].test, t.att;
    if r.Has? {
      if q[1..] == [] && u == t {
        n := Elem(p[0].ns, p[0].name, TestAttrs(s), []);
      } else {
        n := Stocked(p[0], TestAttrs(s), q[1..], u);
      }
      v := "x";
      assert !Matches(q[0], n);
    } else if s.Is? && s.att == b && s.val != r.val {
      n, v := Stocked(p[0], TestAttrs(s), q[1..], u), r.val;
      assert !Matches(q[0], n);
    } else {
      n, v := Stocked(p[0], TestAttrs(s)[b := r.val], q[1..], u), r.val + "x";
      assert Matches(q[0], n);
      assert !Matches(q[0], Put(n, p[1..], t, v));
    }
    if q[1..] != [] {
      assert Get(Put(n, p[1..], t, v), q[1..], u) == Get(n, q[1..], u);
    }
  }

  lemma DisturbAtChild(p: seq<Step>, t: Target, q: seq<Step>, u: Target)
      returns (n: Node, v: string)
    requires |p| == 1 && q != [] && p[0].ns == q[0].ns && p[0].name == q[0].name
    requires !Rematches(p[0], q[0], [], t) && CanMeet(p[0].test, q[0].test)
    requires Interferes([], t, q[1..], u)
    ensures Matches(p[0], n) && GetKid(Put(n, p[1..], t, v), q, u) != GetKid(n, q, u)
  {
    var attrs := Both(p[0].test, q[0].test);
    if t.Attribute? {
      n := Elem(p[0].ns, p[0].name, WithAttr(attrs, t.att), []);
      v := n.attrs[t.att] + "x";
    } else {
      n := Elem(p[0].ns, p[0].name, attrs, if q[1..] == [] then [] else Sample(q[1..], u));
      v := "x";
      var after := Put(n, p[1..], t, v);
      assert after.kids == [Text(v)];
      if q[1..] != [] {
        assert [Text(v)][1..] == [];
        assert GetKids([Text(v)], q[1..], u) == None;
      }
    }
  }

  lemma {:induction false} DisturbKids(p: seq<Step>, t: Target, q: seq<Step>, u: Target)
      returns (kids: seq<Node>, v: string)
    requires p != [] && q != [] && Interferes(p, t, q, u)
    ensures GetKids(PutKids(kids, p, t, v), q, u) != GetKids(kids, q, u)
    decreases |p|
  {
    var n: Node;
    if Rematches(p[0], q[0], p[1..], t) {
      n, v := DisturbByMatch(p, t, q, u);
      OneKid(n, p, t, v, q, u);
      kids := [n];
    } else if CanMeet(p[0].test, q[0].test) && Interferes(p[1..], t, q[1..], u) {
      if |p| == 1 {
        n, v := DisturbAtChild(p, t, q, u);
      } else {
        var below;
        below, v := DisturbKids(p[1..], t, q[1..], u);
        n := Elem(p[0].ns, p[0].name, Both(p[0].test, q[0].test), below);
      }
      OneKid(n, p, t, v, q, u);
      kids := [n];
    } else {
      kids, v := [], "x";
      var n := Put(Fresh(p[0]), p[1..], t, v);
      assert [n][1..] == [];
      MatchKept(Fresh(p[0]), p, t, v, q[0]);
      assert GetKid(n, q, u).Some?;
    }
  }

  lemma Disturb(p: seq<Step>, t: Target, q: seq<Step>, u: Target) returns (e: Element, v: string)
    requires Interferes(p, t, q, u)
    ensures Get(Put(e, p, t, v), q, u) != Get(e, q, u)
  {
    if p != [] {
      var kids;
      kids, v := DisturbKids(p, t, q, u);
      e := Elem("", "", map[], kids);
    } else if t.Attribute? {
      e, v := Elem("", "", map[t.att := "x"], []), "y";
    } else {
      e, v := Elem("", "", map[], if q == [] then [] else Sample(q, u)), "x";
      if q != [] {
        assert [Text(v)][1..] == [];
        assert GetKids([Text(v)], q, u) == None;
      }
    }
  }

  /** Every write along (p, t), on every tree, leaves the read of (q, u) as it was. */
  ghost predicate Silent(p: seq<Step>, t: Target, q: seq<Step>, u: Target) {
    forall e: Element, v :: Get(Put(e, p, t, v), q, u) == Get(e, q, u)
  }

  /** The frame law of path writes holds exactly for the pairs that `Interferes` rejects. */
  lemma FrameIffSilent(p: seq<Step>, t: Target, q: seq<Step>, u: Target)
    ensures Silent(p, t, q, u) <==> !Interferes(p, t, q, u)
  {
    if Interferes(p, t, q, u) {
      var e, v := Disturb(p, t, q, u);
    } else {
      forall e: Element, v ensures Get(Put(e, p, t, v), q, u) == Get(e, q, u) {
        Frame(e, p, t, v, q, u);
      }
    }
  }
}
