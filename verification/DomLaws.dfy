/** The put-get law of path writes, with the exact condition under which it holds. */
module DomLaws {
  import opened Prelude
  import opened Dom

  /** The write replaces the very attribute value that the last step selects by. */
  predicate Clobbers(p: seq<Step>, t: Target, v: string) {
    p != [] && t.Attribute? &&
    var last := p[|p| - 1].test;
    last.Is? && last.att == t.att && last.val != v
  }

  /** A path that ends in the attribute its last step fixes can read that fixed value only. */
  lemma {:induction false} FixedValue(kids: seq<Node>, p: seq<Step>, t: Target)
    requires p != [] && t.Attribute?
    requires p[|p| - 1].test.Is? && p[|p| - 1].test.att == t.att
    ensures GetKids(kids, p, t) in {None, Some(p[|p| - 1].test.val)}
    decreases |p|, |kids|
  {
    if kids != [] {
      FixedValue(kids[1..], p, t);
      if Matches(p[0], kids[0]) {
        if |p| > 1 {
          FixedValue(kids[0].kids, p[1..], t);
          assert p[1..][|p[1..]| - 1] == p[|p| - 1];
          assert GetKid(kids[0], p, t) == GetKids(kids[0].kids, p[1..], t);
        } else {
          assert Get(kids[0], p[1..], t) == GetTarget(kids[0], t);
        }
      }
    }
  }

  /** A write below or at a child keeps the child's match, unless it clobbers the test. */
  lemma StillMatches(n: Node, p: seq<Step>, t: Target, v: string)
    requires p != [] && Matches(p[0], n) && !Clobbers(p, t, v)
    ensures Matches(p[0], Put(n, p[1..], t, v))
  {
    if |p| > 1 {
      assert Put(n, p[1..], t, v).attrs == n.attrs;
    }
  }

  lemma {:induction false} PutGetKids(kids: seq<Node>, p: seq<Step>, t: Target, v: string)
    requires p != [] && !Clobbers(p, t, v)
    ensures GetKids(PutKids(kids, p, t, v), p, t) == Some(v)
    decreases |p|, 0, |kids|
  {
    if kids == [] {
      StillMatches(Fresh(p[0]), p, t, v);
      PutGetElement(Fresh(p[0]), p[1..], t, v);
    } else if Matches(p[0], kids[0]) {
      StillMatches(kids[0], p, t, v);
      PutGetElement(kids[0], p[1..], t, v);
    } else {
      PutGetKids(kids[1..], p, t, v);
      assert PutKids(kids, p, t, v)[1..] == PutKids(kids[1..], p, t, v);
    }
  }

  lemma {:induction false} PutGetElement(e: Element, p: seq<Step>, t: Target, v: string)
    requires !Clobbers(p, t, v)
    ensures Get(Put(e, p, t, v), p, t) == Some(v)
    decreases |p|, 1, 0
  {
    if p != [] {
      PutGetKids(e.kids, p, t, v);
    }
  }

  /**
   Put-get on any tree: after writing `v` along a path, evaluating the path gives `v` exactly
   when the write does not clobber the value its own last step selects by.
   */
  lemma PutGet(e: Element, p: seq<Step>, t: Target, v: string)
    ensures Get(Put(e, p, t, v), p, t) == Some(v) <==> !Clobbers(p, t, v)
  {
    if Clobbers(p, t, v) {
      FixedValue(Put(e, p, t, v).kids, p, t);
    } else {
      PutGetElement(e, p, t, v);
    }
  }

  lemma {:induction false} PutPutKids(kids: seq<Node>, p: seq<Step>, t: Target, v: string, w: string)
    requires p != [] && !Clobbers(p, t, v)
    ensures PutKids(PutKids(kids, p, t, v), p, t, w) == PutKids(kids, p, t, w)
    decreases |p|, 0, |kids|
  {
    if kids == [] {
      StillMatches(Fresh(p[0]), p, t, v);
      PutPut(Fresh(p[0]), p[1..], t, v, w);
    } else if Matches(p[0], kids[0]) {
      StillMatches(kids[0], p, t, v);
      PutPut(kids[0], p[1..], t, v, w);
    } else {
      PutPutKids(kids[1..], p, t, v, w);
      assert PutKids(kids, p, t, v)[1..] == PutKids(kids[1..], p, t, v);
    }
  }

  /** The later of two writes along one path is the only one that leaves a trace. */
  lemma {:induction false} PutPut(e: Element, p: seq<Step>, t: Target, v: string, w: string)
    requires !Clobbers(p, t, v)
    ensures Put(Put(e, p, t, v), p, t, w) == Put(e, p, t, w)
    decreases |p|, 1, 0
  {
    if p != [] {
      PutPutKids(e.kids, p, t, v, w);
    }
  }
}
