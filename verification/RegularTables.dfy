/**
 Tables of the two kinds of entry that the shipped dialog, context, system and agent states use: an
 attribute of a child of the root, and the value of a dimension of emotion, found by the dimension
 set and the name.  All of them are independent.
 */
module RegularTables {
  import opened Dom
  import opened Independence
  import opened PathSyntax
  import opened PathSplitter
  import opened PathRoundTrip
  import opened StateDocument
  import opened StateRoundTrip
  import opened IndependentTables

  /** Where an entry's value is: an attribute of a child, or a dimension of a set. */
  datatype Spot = Leaf(child: string, att: string) | Dimension(kind: string, name: string)

  /** The prefixes and the root name that all paths of a table use. */
  datatype Setting = Setting(prefix: string, emotion: string, root: string)

  function SpotParts(f: Setting, s: Spot): Parts {
    match s
    case Leaf(child, att) =>
      Parts([Part(f.prefix, f.root, "", ""), Part(f.prefix, child, "", "")], AttributeNamed(att))
    case Dimension(kind, name) =>
      Parts([Part(f.prefix, f.root, "", ""), Part(f.emotion, "emotion", "dimension-set", kind),
             Part(f.emotion, "dimension", "name", name)], AttributeNamed("value"))
  }

  function SpotSteps(m: Mapper, f: Setting, s: Spot): seq<Step> {
    match s
    case Leaf(child, _) => [Step(NamespaceURI(m.prefixes, f.prefix), child, Any)]
    case Dimension(kind, name) =>
      var ns := NamespaceURI(m.prefixes, f.emotion);
      [Step(ns, "emotion", Is("dimension-set", kind)), Step(ns, "dimension", Is("name", name))]
  }

  function SpotTarget(s: Spot): Target {
    Attribute(if s.Leaf? then s.att else "value")
  }

  /** A value that can stand in quotes within brackets. */
  predicate Quotable(v: string) {
    v != "" && ']' !in v && '\'' !in v
  }

  predicate GoodSpot(m: Mapper, f: Setting, s: Spot) {
    match s
    case Leaf(child, att) => IsName(child) && child != "emotion" && IsAttributeName(att)
    case Dimension(kind, name) => Quotable(kind) && Quotable(name) && Declared(m, f.emotion)
  }

  /** Every name has a good spot of its own, and is mapped to the path of that spot. */
  ghost predicate Regular(m: Mapper, f: Setting, spots: map<string, Spot>) {
    && Declared(m, f.prefix) && IsName(f.root) && spots.Keys == m.names.Keys
    && (forall n :: n in spots ==> GoodSpot(m, f, spots[n]) && m.names[n] == Print(SpotParts(f, spots[n])))
    && forall n, n' :: n in spots && n' in spots && n != n' ==> spots[n] != spots[n']
  }

  // ---------- The paths ----------

  lemma FixedNames()
    ensures IsName("emotion") && IsName("dimension")
    ensures IsAttributeName("value") && IsAttributeName("name") && "value" != "name"
  {
    assert |"value"| == 5 && |"name"| == 4 && "value"[0] == 'v' && "xmlns"[0] == 'x';
  }

  lemma FixedTest()
    ensures IsAttributeName("dimension-set")
  {
    assert |"dimension-set"| == 13;
  }

  /** A step of declared prefix and good names, with an empty or quotable value for its test. */
  predicate GoodStep(m: Mapper, p: Part) {
    && Declared(m, p.prefix) && IsName(p.local)
    && (p.att == "" || IsAttributeName(p.att)) && (p.val == "" || (p.att != "" && Quotable(p.val)))
  }

  lemma GoodStepReads(m: Mapper, p: Part)
    requires GoodStep(m, p)
    ensures InGrammar(p) && Readable(p) && EvaluableStep(m, p)
  {
    hide IsName, Plain, ColonBeforeSlash;
    assert p.prefix != "" && p.local != "" by {
      NotEmpty(p.prefix);
      NotEmpty(p.local);
    }
    NameIsPlain(p.prefix);
    NameIsPlain(p.local);
    EmptyIsPlain();
    assert ']' !in p.val && '\'' !in p.val;
    if p.att != "" {
      NameIsPlain(p.att);
    }
  }

  lemma NotEmpty(s: string)
    requires IsName(s)
    ensures s != ""
  {
  }

  lemma SpotStepsAreGood(m: Mapper, f: Setting, s: Spot)
    requires Declared(m, f.prefix) && IsName(f.root) && GoodSpot(m, f, s)
    ensures forall i :: 0 <= i < |SpotParts(f, s).steps| ==> GoodStep(m, SpotParts(f, s).steps[i])
    ensures IsAttributeName(SpotParts(f, s).last.name)
  {
    hide IsName, Quotable;
    FixedNames();
    FixedTest();
  }

  /** A path of good steps and a good last name is one that the engine reads as its parts say. */
  lemma GoodPathEvaluable(m: Mapper, parts: Parts)
    requires parts.last.AttributeNamed? && IsAttributeName(parts.last.name)
    requires forall i :: 0 <= i < |parts.steps| ==> GoodStep(m, parts.steps[i])
    ensures Evaluable(m, Print(parts)) && Split(Print(parts)) == Ok(parts)
  {
    hide Split, Print, GoodStep, InGrammar, Readable, EvaluableStep, IsName, Plain;
    forall i | 0 <= i < |parts.steps|
      ensures InGrammar(parts.steps[i]) && Readable(parts.steps[i]) && EvaluableStep(m, parts.steps[i])
    {
      GoodStepReads(m, parts.steps[i]);
    }
    NameIsPlain(parts.last.name);
    PlainHasNoSlash(parts.last.name);
    SplitUndoesPrint(parts);
  }

  lemma SpotEvaluable(m: Mapper, f: Setting, s: Spot)
    requires Declared(m, f.prefix) && IsName(f.root) && GoodSpot(m, f, s)
    ensures Evaluable(m, Print(SpotParts(f, s)))
    ensures Split(Print(SpotParts(f, s))) == Ok(SpotParts(f, s))
  {
    hide Split, Print, GoodStep, GoodSpot, IsName, Evaluable;
    SpotStepsAreGood(m, f, s);
    GoodPathEvaluable(m, SpotParts(f, s));
  }

  lemma PlainHasNoSlash(s: string)
    requires Plain(s)
    ensures '/' !in s
  {
    assert '/' in DELIMITERS;
  }

  lemma SpotPath(m: Mapper, f: Setting, s: Spot)
    requires Declared(m, f.prefix) && IsName(f.root) && GoodSpot(m, f, s)
    ensures var expr := Print(SpotParts(f, s));
            && Evaluable(m, expr)
            && PathOf(m, expr) == Path([Step(NamespaceURI(m.prefixes, f.prefix), f.root, Any)] + SpotSteps(m, f, s),
                                       SpotTarget(s))
  {
    hide Split, Print, Evaluable, IsName;
    SpotEvaluable(m, f, s);
    SpotResolves(m, f, s);
  }

  lemma SpotResolves(m: Mapper, f: Setting, s: Spot)
    requires Declared(m, f.prefix) && IsName(f.root) && GoodSpot(m, f, s)
    ensures Resolve(m, SpotParts(f, s))
         == Path([Step(NamespaceURI(m.prefixes, f.prefix), f.root, Any)] + SpotSteps(m, f, s), SpotTarget(s))
  {
    hide IsName;
    NotEmpty(f.prefix);
    var parts := SpotParts(f, s);
    assert ResolveStep(m, parts.steps[0]) == Step(NamespaceURI(m.prefixes, f.prefix), f.root, Any);
    match s {
      case Leaf(child, _) =>
        assert ResolveStep(m, parts.steps[1]) == Step(NamespaceURI(m.prefixes, f.prefix), child, Any);
      case Dimension(kind, name) =>
        NotEmpty(f.emotion);
        assert ResolveStep(m, parts.steps[1]) == SpotSteps(m, f, s)[0];
        assert ResolveStep(m, parts.steps[2]) == SpotSteps(m, f, s)[1];
    }
  }

  // ---------- Independence ----------

  lemma SpotsApart(m: Mapper, f: Setting, s: Spot, t: Spot)
    requires GoodSpot(m, f, s) && GoodSpot(m, f, t) && s != t
    ensures Independent(SpotSteps(m, f, s), SpotTarget(s), SpotSteps(m, f, t), SpotTarget(t))
  {
    hide IsName, Quotable;
    FixedNames();
    var p, q := SpotSteps(m, f, s), SpotSteps(m, f, t);
    assert p[0] == q[0] && |p| == 2 && |q| == 2 ==>
             Shared(p[1..], q[1..]) <= 1 && p[1..][0] == p[1] && q[1..][0] == q[1];
  }

  lemma SpotKeepsTest(m: Mapper, f: Setting, s: Spot)
    ensures LeavesOwnTest(SpotSteps(m, f, s), SpotTarget(s))
  {
    FixedNames();
  }

  /** Every regular table is independent, so that all its values survive the round trip. */
  lemma RegularIsIndependent(m: Mapper, f: Setting, spots: map<string, Spot>)
    requires Regular(m, f, spots)
    ensures IndependentTable(m, f.root, NamespaceURI(m.prefixes, f.prefix))
  {
    hide Evaluable, PathOf, Print, Keyed, Separate, GoodSpot, SpotSteps, SpotTarget, IsName, LeavesOwnTest;
    var ns := NamespaceURI(m.prefixes, f.prefix);
    forall n | n in m.names
      ensures Evaluable(m, m.names[n])
      ensures var p := PathOf(m, m.names[n]);
              && p == Path([Step(ns, f.root, Any)] + SpotSteps(m, f, spots[n]), SpotTarget(spots[n]))
              && p.steps[1..] == SpotSteps(m, f, spots[n])
      ensures LeavesOwnTest(SpotSteps(m, f, spots[n]), SpotTarget(spots[n]))
    {
      SpotPath(m, f, spots[n]);
      SpotKeepsTest(m, f, spots[n]);
    }
    forall n, n' | n in m.names && n' in m.names && n != n'
      ensures KeyedBelow(PathOf(m, m.names[n]), PathOf(m, m.names[n']))
      ensures SeparateBelow(PathOf(m, m.names[n]), PathOf(m, m.names[n']))
    {
      SpotsApart(m, f, spots[n], spots[n']);
    }
  }

  function TableFor(prefixes: map<string, string>, f: Setting, spots: map<string, Spot>): Mapper {
    Mapper(prefixes, map n | n in spots :: Print(SpotParts(f, spots[n])))
  }

  lemma RegularRoundTrips(m: Mapper, f: Setting, spots: map<string, Spot>)
    requires Regular(m, f, spots)
    ensures RoundTrips(m, f.root, NamespaceURI(m.prefixes, f.prefix))
  {
    hide Regular, IndependentTable, RoundTrips;
    RegularIsIndependent(m, f, spots);
    IndependentRoundTrip(m, f.root, NamespaceURI(m.prefixes, f.prefix));
  }

  // ---------- The shipped dialog state ----------

  lemma ShippedPrefixes()
    ensures IsName("semaine") && "semaine" != "xml" && "semaine" != "xmlns"
    ensures IsName("emotion") && "emotion" != "xml" && "emotion" != "xmlns" && "semaine" != "emotion"
  {
    assert "semaine"[0] == 's' && "emotion"[0] == 'e' && "xml"[0] == 'x' && "xmlns"[0] == 'x';
  }

  const DIALOG := Setting("semaine", "", "dialog-state")

  function DialogSpots(): map<string, Spot> {
    map["userTurnState" := Leaf("user", "believesHasTurn"), "agentTurnState" := Leaf("agent", "believesHasTurn"),
        "convState" := Leaf("agent", "convState")]
  }

  lemma DialogRoot()
    ensures IsName("dialog-state")
  {
  }

  lemma DialogChildren()
    ensures IsName("user") && IsName("agent") && "user" != "agent" && "user" != "emotion" && "agent" != "emotion"
  {
    assert "user"[0] == 'u' && "agent"[0] == 'a' && "emotion"[0] == 'e';
  }

  lemma DialogAttributes()
    ensures IsAttributeName("believesHasTurn") && IsAttributeName("convState") && "believesHasTurn" != "convState"
  {
    assert "believesHasTurn"[0] == 'b' && "convState"[0] == 'c' && "xmlns"[0] == 'x';
  }

  /** Whatever is said about the dialog, in whatever order it is written, is read back. */
  lemma DialogStateRoundTrips(semaine: string)
    requires semaine != ""
    ensures RoundTrips(TableFor(map["semaine" := semaine], DIALOG, DialogSpots()), "dialog-state", semaine)
  {
    hide Print, IsName, RoundTrips;
    var spots := DialogSpots();
    var m := TableFor(map["semaine" := semaine], DIALOG, spots);
    ShippedPrefixes();
    DialogRoot();
    DialogChildren();
    DialogAttributes();
    assert Regular(m, DIALOG, spots);
    RegularRoundTrips(m, DIALOG, spots);
  }

  // ---------- The shipped agent state ----------

  const AGENT := Setting("semaine", "emotion", "agent-state")

  function AgentLeaves(): map<string, Spot> {
    map["needToSpeak" := Leaf("needtospeak", "value"),
        "turnTakingIntention" := Leaf("turntakingintention", "value"),
        "agentUtterance" := Leaf("agentutterance", "utterance"),
        "agentUtteranceStartTime" := Leaf("agentutterance", "starttime")]
  }

  const SETS := "http://www.semaine-" + "project.eu/emo/dimension/"
  const COMMUNICATIVE_SET := SETS + "communicative-functions.xml"
  const LISTENER_SET := SETS + "listener-meanings.xml"

  /** The short names of dimensions are the dimensions' own names. */
  const COMMUNICATIVE := ["agreement", "acceptance", "belief", "liking", "understanding", "interest"]
  const LISTENER := [
    "anger", "sadness", "amusement", "happiness", "contempt", "anticipation", "solidarity", "antagonism"]

  function AgentSpots(): map<string, Spot> {
    AgentLeaves()
    + (map n | n in COMMUNICATIVE :: Dimension(COMMUNICATIVE_SET, n))
    + (map n | n in LISTENER :: Dimension(LISTENER_SET, n))
  }

  lemma QuotableJoin(v: string, w: string)
    requires Quotable(v) && Quotable(w)
    ensures Quotable(v + w)
  {
  }

  lemma QuotablePieces()
    ensures Quotable("http://www.semaine-") && Quotable("project.eu/emo/dimension/")
  {
  }

  lemma QuotableFiles()
    ensures Quotable("communicative-functions.xml") && Quotable("listener-meanings.xml")
  {
  }

  lemma QuotableSets()
    ensures Quotable(COMMUNICATIVE_SET) && Quotable(LISTENER_SET)
  {
    hide Quotable;
    QuotablePieces();
    QuotableFiles();
    QuotableJoin("http://www.semaine-", "project.eu/emo/dimension/");
    QuotableJoin(SETS, "communicative-functions.xml");
    QuotableJoin(SETS, "listener-meanings.xml");
  }

  lemma QuotableDimensions(n: string)
    requires n in COMMUNICATIVE || n in LISTENER
    ensures Quotable(n)
  {
  }

  lemma AgentRoot()
    ensures IsName("agent-state")
  {
  }

  lemma AgentChildren()
    ensures IsName("needtospeak") && IsName("agentutterance")
    ensures "needtospeak" != "turntakingintention" && "needtospeak" != "agentutterance"
    ensures "turntakingintention" != "agentutterance"
    ensures "emotion" !in ["needtospeak", "turntakingintention", "agentutterance"]
  {
    assert "needtospeak"[0] == 'n' && "turntakingintention"[0] == 't' && "agentutterance"[0] == 'a';
    assert "emotion"[0] == 'e';
  }

  lemma AgentTurnTaking()
    ensures IsName("turntakingintention")
  {
  }

  lemma AgentAttributes()
    ensures IsAttributeName("utterance") && IsAttributeName("starttime") && "utterance" != "starttime"
  {
    assert "utterance"[0] == 'u' && "starttime"[0] == 's' && "xmlns"[0] == 'x';
  }

  /** The four leaves are good, and differ. */
  lemma AgentLeavesGood(m: Mapper)
    ensures forall n :: n in AgentLeaves() ==> AgentLeaves()[n].Leaf? && GoodSpot(m, AGENT, AgentLeaves()[n])
    ensures forall n, n' :: n in AgentLeaves() && n' in AgentLeaves() && n != n' ==>
              AgentLeaves()[n] != AgentLeaves()[n']
  {
    hide IsName;
    FixedNames();
    AgentChildren();
    AgentTurnTaking();
    AgentAttributes();
  }

  /** A short name has a leaf, or the dimension of that very name. */
  lemma AgentSpotAt(m: Mapper, n: string)
    requires n in AgentSpots() && Declared(m, "emotion")
    ensures GoodSpot(m, AGENT, AgentSpots()[n])
    ensures AgentSpots()[n].Leaf? ==> n in AgentLeaves() && AgentSpots()[n] == AgentLeaves()[n]
    ensures AgentSpots()[n].Dimension? ==> AgentSpots()[n].name == n
  {
    hide Quotable, IsName, AgentLeaves;
    AgentLeavesGood(m);
    QuotableSets();
    if n in COMMUNICATIVE || n in LISTENER {
      QuotableDimensions(n);
    }
  }

  /** Whatever is said about the agent, in whatever order it is written, is read back. */
  lemma AgentStateRoundTrips(semaine: string, emotion: string)
    requires semaine != "" && emotion != ""
    ensures var prefixes := map["semaine" := semaine, "emotion" := emotion];
            RoundTrips(TableFor(prefixes, AGENT, AgentSpots()), "agent-state", semaine)
  {
    hide Print, IsName, RoundTrips, AgentSpots, AgentLeaves, GoodSpot;
    var spots := AgentSpots();
    var m := TableFor(map["semaine" := semaine, "emotion" := emotion], AGENT, spots);
    ShippedPrefixes();
    AgentRoot();
    AgentLeavesGood(m);
    forall n | n in spots ensures GoodSpot(m, AGENT, spots[n]) {
      AgentSpotAt(m, n);
    }
    forall n, n' | n in spots && n' in spots && n != n' ensures spots[n] != spots[n'] {
      AgentSpotAt(m, n);
      AgentSpotAt(m, n');
    }
    assert Regular(m, AGENT, spots);
    RegularRoundTrips(m, AGENT, spots);
  }
}
