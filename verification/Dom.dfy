/**
 Documents as ordered trees, and the two ways the state-info code touches them:
 writing a value along a path by "first matching child, or append one", and
 evaluating a path to its first result in document order.
 */
module Dom {
  import opened Prelude

  datatype Node =
    | Elem(ns: string, name: string, attrs: map<string, string>, kids: seq<Node>)
    | Text(text: string)

  type Element = n: Node | n.Elem? witness Elem("", "", map[], [])

  /** The optional bracketed test of a step: absent, `[@att]`, or `[@att='val']`. */
  datatype Test = Any | Has(att: string) | Is(att: string, val: string)

  /** One element step, its prefix already resolved to a namespace URI. */
  datatype Step = Step(ns: string, name: string, test: Test)

  /** The last part of a path: `text()` or `@att`. */
  datatype Target = Content | Attribute(att: string)

  predicate Passes(test: Test, attrs: map<string, string>) {
    match test
    case Any => true
    case Has(a) => a in attrs
    case Is(a, w) => a in attrs && attrs[a] == w
  }

  predicate SameName(s: Step, n: Node) {
    n.Elem? && n.ns == s.ns && n.name == s.name
  }

  predicate Matches(s: Step, n: Node) {
    SameName(s, n) && Passes(s.test, n.attrs)
  }

  /** The attributes a step's test puts on the element created for it. */
  function TestAttrs(test: Test): map<string, string> {
    match test
    case Any => map[]
    case Has(a) => map[a := ""]
    case Is(a, w) => map[a := w]
  }

  /** The element appended when no child matches the step. */
  function Fresh(s: Step): Element {
    Elem(s.ns, s.name, TestAttrs(s.test), [])
  }

  // ---------- Writing ----------

  function PutTarget(e: Element, t: Target, v: string): Element {
    match t
    case Content => e.(kids := [Text(v)])
    case Attribute(a) => e.(attrs := e.attrs[a := v])
  }

  function Put(e: Element, p: seq<Step>, t: Target, v: string): Element
    decreases |p|, 1, 0
  {
    if p == [] then PutTarget(e, t, v) else e.(kids := PutKids(e.kids, p, t, v))
  }

  function PutKids(kids: seq<Node>, p: seq<Step>, t: Target, v: string): seq<Node>
    requires p != []
    decreases |p|, 0, |kids|
  {
    if kids == [] then
      [Put(Fresh(p[0]), p[1..], t, v)]
    else if Matches(p[0], kids[0]) then
      [Put(kids[0], p[1..], t, v)] + kids[1..]
    else
      [kids[0]] + PutKids(kids[1..], p, t, v)
  }

  /** A write that gets stuck: it comes to create an element for a step that is barred. */
  datatype Stuckness = Free | Stuck(tree: Element)

  /** The element that is left behind: appended, but without the attribute of its test. */
  function Bare(s: Step): Element {
    Elem(s.ns, s.name, map[], [])
  }

  /** Whether a write along a path gets stuck, and the tree that it then leaves. */
  function Sticks(e: Element, p: seq<Step>, barred: seq<bool>): Stuckness
    requires |p| == |barred|
    decreases |p|, 1, 0
  {
    if p == [] then Free
    else
      var kids := SticksKids(e.kids, p, barred);
      if kids.None? then Free else Stuck(e.(kids := kids.value))
  }

  /** The children that a write which gets stuck among them leaves. */
  function SticksKids(kids: seq<Node>, p: seq<Step>, barred: seq<bool>): Option<seq<Node>>
    requires |p| == |barred| && p != []
    decreases |p|, 0, |kids|
  {
    if kids == [] then
      if barred[0] then Some([Bare(p[0])])
      else
        var child := Sticks(Fresh(p[0]), p[1..], barred[1..]);
        if child.Free? then None else Some([child.tree])
    else if Matches(p[0], kids[0]) then
      var child := Sticks(kids[0], p[1..], barred[1..]);
      if child.Free? then None else Some([child.tree] + kids[1..])
    else
      var rest := SticksKids(kids[1..], p, barred);
      if rest.None? then None else Some([kids[0]] + rest.value)
  }

  predicate AllOpen(barred: seq<bool>) {
    forall i :: 0 <= i < |barred| ==> !barred[i]
  }

  lemma {:induction false} NothingBarsKids(kids: seq<Node>, p: seq<Step>, barred: seq<bool>)
    requires |p| == |barred| && p != [] && AllOpen(barred)
    ensures SticksKids(kids, p, barred).None?
    decreases |p|, 0, |kids|
  {
    if kids == [] {
      NothingBars(Fresh(p[0]), p[1..], barred[1..]);
    } else if Matches(p[0], kids[0]) {
      NothingBars(kids[0], p[1..], barred[1..]);
    } else {
      NothingBarsKids(kids[1..], p, barred);
    }
  }

  lemma {:induction false} NothingBars(e: Element, p: seq<Step>, barred: seq<bool>)
    requires |p| == |barred| && AllOpen(barred)
    ensures Sticks(e, p, barred).Free?
    decreases |p|, 1, 0
  {
    if p != [] {
      NothingBarsKids(e.kids, p, barred);
    }
  }

  // ---------- Reading ----------

  /** The first text node among the children. */
  function FirstText(kids: seq<Node>): Option<string> {
    if kids == [] then None
    else if kids[0].Text? then Some(kids[0].text)
    else FirstText(kids[1..])
  }

  function GetTarget(e: Element, t: Target): Option<string> {
    match t
    case Content => FirstText(e.kids)
    case Attribute(a) => if a in e.attrs then Some(e.attrs[a]) else None
  }

  function Get(e: Element, p: seq<Step>, t: Target): Option<string>
    decreases |p|, 1, 0
  {
    if p == [] then GetTarget(e, t) else GetKids(e.kids, p, t)
  }

  /** What one child contributes to a path that starts at its parent. */
  function GetKid(n: Node, p: seq<Step>, t: Target): Option<string>
    requires p != []
    decreases |p|, 0, 0
  {
    if Matches(p[0], n) then Get(n, p[1..], t) else None
  }

  function GetKids(kids: seq<Node>, p: seq<Step>, t: Target): Option<string>
    requires p != []
    decreases |p|, 0, |kids|
  {
    if kids == [] then None
    else
      var first := GetKid(kids[0], p, t);
      if first.Some? then first else GetKids(kids[1..], p, t)
  }
}
