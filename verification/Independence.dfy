/** A plain reading of when two paths are independent, which rules interference out. */
module Independence {
  import opened Dom
  import opened Interference

  /** How many leading steps two paths share. */
  function Shared(p: seq<Step>, q: seq<Step>): (k: nat)
    ensures k <= |p| && k <= |q| && p[..k] == q[..k]
    ensures k < |p| && k < |q| ==> p[k] != q[k]
  {
    if p != [] && q != [] && p[0] == q[0] then
      var k := 1 + Shared(p[1..], q[1..]);
      assert p[..k] == [p[0]] + p[1..][..k - 1] && q[..k] == [q[0]] + q[1..][..k - 1];
      k
    else 0
  }

  /** The final attribute is not the one that its element is selected by. */
  predicate LeavesOwnTest(p: seq<Step>, t: Target) {
    p != [] && t.Attribute? ==> !Mentions(p[|p| - 1].test, t.att)
  }

  /** A text target has no path running through it. */
  predicate TextIsLeaf(p: seq<Step>, t: Target, q: seq<Step>) {
    t.Content? ==> !(p < q)
  }

  /**
   Where the paths part, equal names are told apart by values of one attribute, and neither path
   ends on its own test's attribute.
   */
  predicate Keyed(p: seq<Step>, t: Target, q: seq<Step>, u: Target) {
    var k := Shared(p, q);
    && (k < |p| && k < |q| && p[k].ns == q[k].ns && p[k].name == q[k].name ==>
          p[k].test.Is? && q[k].test.Is? && p[k].test.att == q[k].test.att)
    && LeavesOwnTest(p, t) && LeavesOwnTest(q, u)
  }

  /** Texts are leaves, and the final locations differ. */
  predicate Separate(p: seq<Step>, t: Target, q: seq<Step>, u: Target) {
    TextIsLeaf(p, t, q) && TextIsLeaf(q, u, p) && !(p == q && t == u)
  }

  predicate Independent(p: seq<Step>, t: Target, q: seq<Step>, u: Target) {
    Keyed(p, t, q, u) && Separate(p, t, q, u)
  }

  lemma KeyedTails(p: seq<Step>, t: Target, q: seq<Step>, u: Target)
    requires p != [] && q != [] && p[0] == q[0] && Keyed(p, t, q, u)
    ensures Keyed(p[1..], t, q[1..], u)
  {
    assert Shared(p, q) == 1 + Shared(p[1..], q[1..]);
  }

  lemma SeparateTails(p: seq<Step>, t: Target, q: seq<Step>, u: Target)
    requires p != [] && q != [] && p[0] == q[0] && Separate(p, t, q, u)
    ensures Separate(p[1..], t, q[1..], u)
  {
    assert p == [p[0]] + p[1..] && q == [q[0]] + q[1..];
    assert p[1..] < q[1..] ==> p < q;
    assert q[1..] < p[1..] ==> q < p;
  }

  /** Independent paths never interfere, in either direction. */
  lemma {:induction false} IndependentIsSilent(p: seq<Step>, t: Target, q: seq<Step>, u: Target)
    requires Independent(p, t, q, u)
    ensures !Interferes(p, t, q, u) && !Interferes(q, u, p, t)
    decreases |p|
  {
    if p != [] && q != [] && p[0] == q[0] {
      KeyedTails(p, t, q, u);
      SeparateTails(p, t, q, u);
      IndependentIsSilent(p[1..], t, q[1..], u);
    }
  }
}
