/**
 Documents built from named values and read back.  The table maps each short name to a path
 expression; building writes every non-empty value along its path, analysing evaluates every path.
 */
module StateDocument {
  import opened Prelude
  import opened Dom
  import opened Interference
  import opened PathSyntax
  import opened PathSplitter
  import opened PathRoundTrip

  type Info = map<string, string>

  /** A loaded configuration section: namespace prefixes, and short names with their paths. */
  datatype Mapper = Mapper(prefixes: map<string, string>, names: map<string, string>)

  datatype Path = Path(steps: seq<Step>, target: Target)

  function NamespaceURI(prefixes: map<string, string>, prefix: string): string {
    if prefix in prefixes then prefixes[prefix] else ""
  }

  function TestOf(p: Part): Test {
    if p.att == "" then Any else if p.val == "" then Has(p.att) else Is(p.att, p.val)
  }

  function ResolveStep(m: Mapper, p: Part): Step {
    Step(if p.prefix == "" then "" else NamespaceURI(m.prefixes, p.prefix), p.local, TestOf(p))
  }

  function Resolve(m: Mapper, parts: Parts): Path {
    Path(seq(|parts.steps|, i requires 0 <= i < |parts.steps| => ResolveStep(m, parts.steps[i])),
         match parts.last case TextContent => Content case AttributeNamed(a) => Attribute(a))
  }

  // ---------- Building ----------

  datatype BuildError = NoEntry | BadPath | PathHangs | RootName | RootNamespace | NoElements | NoNamespace

  /** The document so far, and the error that broke building off, if any. */
  datatype Building = Building(doc: Option<Element>, error: Option<BuildError>)

  function EmptyRoot(s: Step): Element {
    Elem(s.ns, s.name, map[], [])
  }

  /** Which steps have a prefix that stands for no namespace: a new element cannot be given such a prefix. */
  function Barred(m: Mapper, parts: Parts): (barred: seq<bool>)
    ensures |barred| == |parts.steps|
  {
    seq(|parts.steps|, i requires 0 <= i < |parts.steps| =>
          parts.steps[i].prefix != "" && NamespaceURI(m.prefixes, parts.steps[i].prefix) == "")
  }

  /**
   Writes one value along one path.  The first step is the root, whose test is ignored.  A new root
   is always given a prefix, which fails when it has no namespace and leaves the empty root.
   */
  function Write(doc: Option<Element>, p: Path, barred: seq<bool>, v: string): Building
    requires |barred| == |p.steps|
  {
    if p.steps == [] then
      Building(doc, Some(NoElements))
    else if doc.None? then
      var root := EmptyRoot(p.steps[0]);
      if root.ns == "" then Building(Some(root), Some(NoNamespace)) else WriteBelow(root, p, barred, v)
    else if doc.value.name != p.steps[0].name then
      Building(doc, Some(RootName))
    else if doc.value.ns != p.steps[0].ns then
      Building(doc, Some(RootNamespace))
    else
      WriteBelow(doc.value, p, barred, v)
  }

  function WriteBelow(root: Element, p: Path, barred: seq<bool>, v: string): Building
    requires |barred| == |p.steps| > 0
  {
    match Sticks(root, p.steps[1..], barred[1..])
    case Stuck(tree) => Building(Some(tree), Some(NoNamespace))
    case Free => Building(Some(Put(root, p.steps[1..], p.target, v)), None)
  }

  function BuildEntry(m: Mapper, doc: Option<Element>, name: string, value: string): Building {
    if value == "" then Building(doc, None)
    else if name !in m.names then Building(doc, Some(NoEntry))
    else
      match Split(m.names[name])
      case Ok(parts) => Write(doc, Resolve(m, parts), Barred(m, parts), value)
      case Err(_) => Building(doc, Some(BadPath))
      case Hangs => Building(doc, Some(PathHangs))
  }

  /** Writes the values of the names in `order`, up to the first error. */
  function Build(m: Mapper, order: seq<string>, info: Info): Building
    requires forall n :: n in order ==> n in info
  {
    if order == [] then Building(None, None)
    else
      var last := |order| - 1;
      var before := Build(m, order[..last], info);
      if before.error.Some? then before
      else BuildEntry(m, before.doc, order[last], info[order[last]])
  }

  // ---------- Analysing ----------

  /** A character that a name can start with: NameStartChar of XML 1.0, section 2.3, but for the colon. */
  predicate StartsName(c: char) {
    || 'a' <= c <= 'z' || 'A' <= c <= 'Z' || c == '_' || '\U{C0}' <= c <= '\U{D6}' || '\U{D8}' <= c <= '\U{F6}'
    || '\U{F8}' <= c <= '\U{2FF}' || '\U{370}' <= c <= '\U{37D}' || '\U{37F}' <= c <= '\U{1FFF}'
    || '\U{200C}' <= c <= '\U{200D}' || '\U{2070}' <= c <= '\U{218F}' || '\U{2C00}' <= c <= '\U{2FEF}'
    || '\U{3001}' <= c <= '\U{D7FF}' || '\U{F900}' <= c <= '\U{FDCF}' || '\U{FDF0}' <= c <= '\U{FFFD}'
    || '\U{10000}' <= c <= '\U{EFFFF}'
  }

  predicate InName(c: char) {
    || StartsName(c) || '0' <= c <= '9' || c == '-' || c == '.' || c == '\U{B7}'
    || '\U{300}' <= c <= '\U{36F}' || '\U{203F}' <= c <= '\U{2040}'
  }

  /** A name without a colon, as section 3 of Namespaces in XML 1.0 defines it. */
  predicate IsName(s: string) {
    s != "" && StartsName(s[0]) && forall i :: 0 <= i < |s| ==> InName(s[i])
  }

  predicate IsAttributeName(s: string) {
    IsName(s) && s != "xmlns"
  }

  /** A prefix that the table declares, and may. */
  predicate Declared(m: Mapper, prefix: string) {
    prefix in m.prefixes && m.prefixes[prefix] != "" && IsName(prefix) && prefix != "xml" && prefix != "xmlns"
  }

  predicate EvaluableStep(m: Mapper, p: Part) {
    && (p.prefix == "" || Declared(m, p.prefix))
    && IsName(p.local)
    && (p.att == "" || IsAttributeName(p.att))
    && '\'' !in p.val
  }

  /** An expression that the XPath engine reads as its parts say, names and declared prefixes included. */
  predicate Evaluable(m: Mapper, expr: string) {
    var r := Split(expr);
    && r.Ok? && PathInGrammar(r.parts) && Print(r.parts) == expr
    && (r.parts.last.AttributeNamed? ==> IsAttributeName(r.parts.last.name))
    && forall i :: 0 <= i < |r.parts.steps| ==> EvaluableStep(m, r.parts.steps[i])
  }

  lemma NameIsPlain(s: string)
    requires IsName(s)
    ensures Plain(s)
  {
    forall c | c in s ensures c !in DELIMITERS {
      var i :| 0 <= i < |s| && s[i] == c;
      assert InName(s[i]);
    }
  }

  function PathOf(m: Mapper, expr: string): Path
    requires Evaluable(m, expr)
  {
    Resolve(m, Split(expr).parts)
  }

  function Evaluate(root: Element, p: Path): Option<string> {
    if p.steps != [] && Matches(p.steps[0], root) then Get(root, p.steps[1..], p.target) else None
  }

  /** What analysing finds for a path, the empty string standing for nothing. */
  function Value(root: Element, p: Path): string {
    match Evaluate(root, p)
    case Some(s) => s
    case None => ""
  }

  predicate AllEvaluable(m: Mapper) {
    forall n :: n in m.names ==> Evaluable(m, m.names[n])
  }

  /** The non-empty values that a document holds for the table's names. */
  function ReadAll(m: Mapper, root: Element): Info
    requires AllEvaluable(m)
  {
    map n | n in m.names && Value(root, PathOf(m, m.names[n])) != "" :: Value(root, PathOf(m, m.names[n]))
  }

  datatype AnalyseError = NullDocument | WrongRootName | WrongRootNamespace | BadExpression

  function Analyse(m: Mapper, doc: Option<Element>, rootName: string, rootNs: string): Result<Info, AnalyseError> {
    if doc.None? then Failure(NullDocument)
    else if doc.value.name != rootName then Failure(WrongRootName)
    else if doc.value.ns != rootNs then Failure(WrongRootNamespace)
    else if !AllEvaluable(m) then Failure(BadExpression)
    else Success(ReadAll(m, doc.value))
  }

  // ---------- Tables whose names do not disturb each other ----------

  /** A path whose own write would change the value its last step selects by. */
  predicate SelfClobbers(p: seq<Step>, t: Target) {
    p != [] && t.Attribute? && p[|p| - 1].test.Is? && p[|p| - 1].test.att == t.att
  }

  predicate Rooted(p: Path, rootName: string, rootNs: string) {
    p.steps != [] && p.steps[0] == Step(rootNs, rootName, Any)
  }

  /** One unpredicated root for all paths, none of which undoes its own last test. */
  predicate WellRooted(m: Mapper, rootName: string, rootNs: string) {
    AllEvaluable(m) &&
    forall n :: n in m.names ==>
      var p := PathOf(m, m.names[n]);
      Rooted(p, rootName, rootNs) && !SelfClobbers(p.steps[1..], p.target)
  }

  predicate Apart(p: Path, q: Path)
    requires p.steps != [] && q.steps != []
  {
    !Interferes(p.steps[1..], p.target, q.steps[1..], q.target)
  }

  predicate Undisturbed(m: Mapper, rootName: string, rootNs: string)
    requires WellRooted(m, rootName, rootNs)
  {
    forall n, n' :: n in m.names && n' in m.names && n != n' ==>
      Apart(PathOf(m, m.names[n]), PathOf(m, m.names[n']))
  }

  /** Paths that do not disturb each other, below a root that has a namespace. */
  predicate Compatible(m: Mapper, rootName: string, rootNs: string) {
    WellRooted(m, rootName, rootNs) && Undisturbed(m, rootName, rootNs) && rootNs != ""
  }

  /** Writing through one name never changes what another name reads, on any document. */
  ghost predicate Lawful(m: Mapper, rootName: string, rootNs: string)
    requires WellRooted(m, rootName, rootNs)
  {
    forall n, n' :: n in m.names && n' in m.names && n != n' ==>
      Keeps(PathOf(m, m.names[n]), PathOf(m, m.names[n']))
  }

  ghost predicate Keeps(p: Path, q: Path)
    requires p.steps != []
  {
    forall root: Element, v :: root.name == p.steps[0].name && root.ns == p.steps[0].ns ==>
      Evaluate(Put(root, p.steps[1..], p.target, v), q) == Evaluate(root, q)
  }

  /** For one pair of paths below one root, the frame law is exactly non-interference. */
  lemma KeepsIffApart(p: Path, q: Path, rootName: string, rootNs: string)
    requires Rooted(p, rootName, rootNs) && Rooted(q, rootName, rootNs)
    ensures Keeps(p, q) <==> Apart(p, q)
  {
    FrameIffSilent(p.steps[1..], p.target, q.steps[1..], q.target);
    if Apart(p, q) {
      forall root: Element, v | root.name == rootName && root.ns == rootNs
        ensures Evaluate(Put(root, p.steps[1..], p.target, v), q) == Evaluate(root, q)
      {
        Frame(root, p.steps[1..], p.target, v, q.steps[1..], q.target);
      }
    } else {
      var e, v := Disturb(p.steps[1..], p.target, q.steps[1..], q.target);
      var root: Element := e.(name := rootName, ns := rootNs);
      Renamed(e, root, p.steps[1..], p.target, v, q.steps[1..], q.target);
      assert Evaluate(Put(root, p.steps[1..], p.target, v), q) != Evaluate(root, q);
    }
  }

  /** An element's own name plays no part in paths that start below it. */
  lemma Renamed(e: Element, f: Element, p: seq<Step>, t: Target, v: string, q: seq<Step>, u: Target)
    requires e.attrs == f.attrs && e.kids == f.kids
    ensures Get(e, q, u) == Get(f, q, u)
    ensures Get(Put(e, p, t, v), q, u) == Get(Put(f, p, t, v), q, u)
  {
    assert Put(e, p, t, v).attrs == Put(f, p, t, v).attrs && Put(e, p, t, v).kids == Put(f, p, t, v).kids;
  }

  /** The frame law holds for a whole table exactly when its paths are pairwise undisturbed. */
  lemma LawfulIffUndisturbed(m: Mapper, rootName: string, rootNs: string)
    requires WellRooted(m, rootName, rootNs)
    ensures Lawful(m, rootName, rootNs) <==> Undisturbed(m, rootName, rootNs)
  {
    hide Keeps, Apart, Evaluable, PathOf;
    forall n, n' | n in m.names && n' in m.names && n != n'
      ensures Keeps(PathOf(m, m.names[n]), PathOf(m, m.names[n'])) <==>
              Apart(PathOf(m, m.names[n]), PathOf(m, m.names[n']))
    {
      KeepsIffApart(PathOf(m, m.names[n]), PathOf(m, m.names[n']), rootName, rootNs);
    }
  }
}
