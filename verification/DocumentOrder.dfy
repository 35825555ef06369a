/**
 A second, relational account of path evaluation: the nodes a path selects, each with its
 address, and document order on addresses.  `Get` is shown to return the first of them, which is
 what a first-result XPath query asks for (section 3.2, Path Expressions, of XPath 2.0).
 */
module DocumentOrder {
  import opened Prelude
  import opened Dom

  /** Child positions from the context element down to the selected node. */
  type Address = seq<nat>

  ghost predicate Selects(e: Element, p: seq<Step>, t: Target, a: Address)
    decreases |p|
  {
    if p != [] then
      a != [] && a[0] < |e.kids| && Matches(p[0], e.kids[a[0]]) &&
      Selects(e.kids[a[0]], p[1..], t, a[1..])
    else if t.Content? then
      |a| == 1 && a[0] < |e.kids| && e.kids[a[0]].Text?
    else
      a == [] && t.att in e.attrs
  }

  ghost function ValueAt(e: Element, p: seq<Step>, t: Target, a: Address): string
    requires Selects(e, p, t, a)
    decreases |p|
  {
    if p != [] then ValueAt(e.kids[a[0]], p[1..], t, a[1..])
    else if t.Content? then e.kids[a[0]].text
    else e.attrs[t.att]
  }

  ghost predicate Precedes(a: Address, b: Address) {
    a != [] && b != [] && (a[0] < b[0] || (a[0] == b[0] && Precedes(a[1..], b[1..])))
  }

  /** `a` is the first selected address among those whose first position is at least `from`. */
  ghost predicate FirstFrom(e: Element, p: seq<Step>, t: Target, from: nat, a: Address) {
    Selects(e, p, t, a) && (a != [] ==> a[0] >= from) &&
    forall b :: Selects(e, p, t, b) && (b != [] ==> b[0] >= from) ==> b == a || Precedes(a, b)
  }

  lemma {:induction false} TextFrom(e: Element, from: nat) returns (a: Address)
    requires from <= |e.kids|
    ensures FirstText(e.kids[from..]).None? ==>
              forall b :: Selects(e, [], Content, b) ==> b[0] < from
    ensures FirstText(e.kids[from..]).Some? ==>
              && FirstFrom(e, [], Content, from, a)
              && ValueAt(e, [], Content, a) == FirstText(e.kids[from..]).value
    decreases |e.kids| - from
  {
    if from == |e.kids| {
      a := [];
    } else {
      assert e.kids[from..][1..] == e.kids[from + 1..];
      if e.kids[from].Text? {
        a := [from];
        forall b | Selects(e, [], Content, b) && (b != [] ==> b[0] >= from)
          ensures b == a || Precedes(a, b)
        {
          assert b == [b[0]];
        }
      } else {
        a := TextFrom(e, from + 1);
        forall b | Selects(e, [], Content, b) && b[0] >= from ensures b[0] >= from + 1 { }
      }
    }
  }

  lemma {:induction false} KidsFrom(e: Element, p: seq<Step>, t: Target, from: nat)
      returns (a: Address)
    requires p != [] && from <= |e.kids|
    ensures GetKids(e.kids[from..], p, t).None? ==>
              forall b :: Selects(e, p, t, b) ==> b[0] < from
    ensures GetKids(e.kids[from..], p, t).Some? ==>
              && FirstFrom(e, p, t, from, a)
              && ValueAt(e, p, t, a) == GetKids(e.kids[from..], p, t).value
    decreases |p|, 0, |e.kids| - from
  {
    if from == |e.kids| {
      a := [];
    } else {
      assert e.kids[from..][1..] == e.kids[from + 1..];
      var kid := e.kids[from];
      if Matches(p[0], kid) {
        var below := First(kid, p[1..], t);
        if Get(kid, p[1..], t).Some? {
          a := [from] + below;
          assert a[1..] == below;
          forall b | Selects(e, p, t, b) && (b != [] ==> b[0] >= from)
            ensures b == a || Precedes(a, b)
          {
            if b[0] == from {
              assert b == [from] + b[1..];
            }
          }
          assert GetKids(e.kids[from..], p, t) == GetKid(kid, p, t);
          return;
        }
      }
      assert GetKid(kid, p, t) == None;
      assert GetKids(e.kids[from..], p, t) == GetKids(e.kids[from + 1..], p, t);
      a := KidsFrom(e, p, t, from + 1);
      assert forall b :: Selects(e, p, t, b) ==> b[0] != from;
    }
  }

  lemma {:induction false} First(e: Element, p: seq<Step>, t: Target) returns (a: Address)
    ensures Get(e, p, t).None? ==> forall b :: !Selects(e, p, t, b)
    ensures Get(e, p, t).Some? ==>
              FirstFrom(e, p, t, 0, a) && ValueAt(e, p, t, a) == Get(e, p, t).value
    decreases |p|, 1, 0
  {
    assert e.kids[0..] == e.kids;
    if p != [] {
      a := KidsFrom(e, p, t, 0);
    } else if t.Content? {
      a := TextFrom(e, 0);
    } else {
      a := [];
    }
  }

  /** `Get` yields the value of the first selected node, and nothing exactly when none is selected. */
  lemma GetIsFirstSelected(e: Element, p: seq<Step>, t: Target)
    ensures Get(e, p, t).None? <==> forall a :: !Selects(e, p, t, a)
    ensures forall x :: Get(e, p, t) == Some(x) <==>
              exists a :: FirstFrom(e, p, t, 0, a) && ValueAt(e, p, t, a) == x
  {
    var first := First(e, p, t);
    assert Get(e, p, t).Some? ==> exists a :: Selects(e, p, t, a) by {
      assert Get(e, p, t).Some? ==> Selects(e, p, t, first);
    }
    forall a, b | FirstFrom(e, p, t, 0, a) && FirstFrom(e, p, t, 0, b) ensures a == b {
      if a != b {
        Asymmetric(a, b);
      }
    }
  }

  lemma {:induction false} Asymmetric(a: Address, b: Address)
    ensures !(Precedes(a, b) && Precedes(b, a))
  {
    if a != [] && b != [] && a[0] == b[0] {
      Asymmetric(a[1..], b[1..]);
    }
  }
}
