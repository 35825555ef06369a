/**
 The user-state table that is shipped: the six face entries, and eighteen others that keep away from
 faces and from each other.  `ShippedRoundTripIff` says exactly which values survive with it.
 */
module ShippedTable {
  import opened Prelude
  import opened Dom
  import opened Interference
  import opened PathSyntax
  import opened PathSplitter
  import opened StateDocument
  import opened StateRoundTrip
  import opened RegularTables
  import opened FaceEntries
  import opened FaceView
  import opened UserState

  // ---------- Entries and their paths ----------

  /** The entries that are not about faces. */
  datatype Entry = Spotted(spot: Spot) | Gesture(att: string) | Intensity | Category(kind: string)

  const USER := Setting("semaine", "emotion", "user-state")

  function RootPart(): Part {
    Part("semaine", "user-state", "", "")
  }

  function EntryParts(e: Entry): Parts {
    match e
    case Spotted(s) => SpotParts(USER, s)
    case Gesture(att) =>
      Parts([RootPart(), Part("bml", "bml", "", ""), Part("bml", "head", "", "")], AttributeNamed(att))
    case Intensity =>
      Parts([RootPart(), Part("emotion", "emotion", "", ""), Part("emotion", "intensity", "", "")],
            AttributeNamed("value"))
    case Category(kind) =>
      Parts([RootPart(), Part("emotion", "emotion", "category-set", kind), Part("emotion", "category", "", "")],
            AttributeNamed("name"))
  }

  function FaceParts(i: Index): Parts {
    Parts([RootPart(), Part("bml", "bml", "", ""), Part("bml", "face", TESTS[i], "")], AttributeNamed(ATTS[i]))
  }

  /** The namespaces that the three prefixes stand for. */
  datatype Uris = Uris(semaine: string, bml: string, emotion: string)

  function Prefixes(u: Uris): map<string, string> {
    map["semaine" := u.semaine, "bml" := u.bml, "emotion" := u.emotion]
  }

  predicate Known(u: Uris) {
    u.semaine != "" && u.bml != "" && u.emotion != ""
  }

  function FaceTable(): map<string, string> {
    map["facialActionUnits" := Print(FaceParts(0)),
        "facialActionUnitsStarted" := Print(FaceParts(1)),
        "facialActionUnitsStopped" := Print(FaceParts(2)),
        "facialExpression" := Print(FaceParts(3)),
        "facialExpressionStarted" := Print(FaceParts(4)),
        "facialExpressionStopped" := Print(FaceParts(5))]
  }

  function TableWith(u: Uris, entries: map<string, Entry>): Mapper {
    Mapper(Prefixes(u), (map n | n in entries :: Print(EntryParts(entries[n]))) + FaceTable())
  }

  function EntrySteps(u: Uris, e: Entry): seq<Step> {
    match e
    case Spotted(Leaf(child, _)) => [Step(u.semaine, child, Any)]
    case Spotted(Dimension(kind, name)) =>
      [Step(u.emotion, "emotion", Is("dimension-set", kind)), Step(u.emotion, "dimension", Is("name", name))]
    case Gesture(_) => [Step(u.bml, "bml", Any), Step(u.bml, "head", Any)]
    case Intensity => [Step(u.emotion, "emotion", Any), Step(u.emotion, "intensity", Any)]
    case Category(kind) => [Step(u.emotion, "emotion", Is("category-set", kind)), Step(u.emotion, "category", Any)]
  }

  function EntryAttribute(e: Entry): string {
    match e
    case Spotted(Leaf(_, att)) => att
    case Spotted(Dimension(_, _)) => "value"
    case Gesture(att) => att
    case Intensity => "value"
    case Category(_) => "name"
  }

  predicate GoodEntry(m: Mapper, e: Entry) {
    match e
    case Spotted(s) => GoodSpot(m, USER, s) && (s.Leaf? ==> s.child != "bml")
    case Gesture(att) => IsAttributeName(att)
    case Intensity => true
    case Category(kind) => Quotable(kind)
  }

  // ---------- What the engine makes of the paths ----------

  lemma PrefixesDiffer()
    ensures "semaine" != "bml" && "semaine" != "emotion" && "bml" != "emotion"
    ensures IsName("bml") && "bml" != "xml" && "bml" != "xmlns"
  {
    assert "semaine"[0] == 's' && "bml"[0] == 'b' && "emotion"[0] == 'e' && "xml"[0] == 'x' && "xmlns"[0] == 'x';
  }

  lemma PrefixesDeclared(m: Mapper, u: Uris)
    requires m.prefixes == Prefixes(u) && Known(u)
    ensures Declared(m, "semaine") && Declared(m, "bml") && Declared(m, "emotion")
    ensures NamespaceURI(m.prefixes, "semaine") == u.semaine
    ensures NamespaceURI(m.prefixes, "bml") == u.bml && NamespaceURI(m.prefixes, "emotion") == u.emotion
  {
    hide IsName;
    PrefixesDiffer();
    ShippedPrefixes();
  }

  lemma UserNames()
    ensures IsName("user-state") && IsName("head") && IsName("face")
  {
  }

  lemma EmotionNames()
    ensures IsName("intensity") && IsName("category")
  {
  }

  lemma CategoryTest()
    ensures IsAttributeName("category-set")
  {
    assert |"category-set"| == 12 && |"xmlns"| == 5;
  }

  lemma FaceAttributeNames(i: Index)
    ensures IsAttributeName(ATTS[i])
    ensures TESTS[i] != "" ==> IsAttributeName(TESTS[i])
  {
    assert |"au"| == 2 && |"end"| == 3 && "start"[0] == 's' && "shape"[0] == 's' && "xmlns"[0] == 'x';
  }

  lemma EntryEvaluable(m: Mapper, u: Uris, e: Entry)
    requires m.prefixes == Prefixes(u) && Known(u) && GoodEntry(m, e)
    ensures Evaluable(m, Print(EntryParts(e))) && Split(Print(EntryParts(e))) == Ok(EntryParts(e))
  {
    hide Split, Print, IsName, Evaluable, Quotable, GoodSpot, Prefixes, Declared;
    PrefixesDeclared(m, u);
    PrefixesDiffer();
    UserNames();
    EmotionNames();
    CategoryTest();
    FixedNames();
    if e.Spotted? {
      SpotEvaluable(m, USER, e.spot);
    } else {
      GoodPathEvaluable(m, EntryParts(e));
    }
  }

  lemma FaceEvaluable(m: Mapper, u: Uris, i: Index)
    requires m.prefixes == Prefixes(u) && Known(u)
    ensures Evaluable(m, Print(FaceParts(i))) && Split(Print(FaceParts(i))) == Ok(FaceParts(i))
  {
    hide Split, Print, IsName, Evaluable, Quotable, Prefixes, Declared;
    PrefixesDeclared(m, u);
    PrefixesDiffer();
    UserNames();
    FaceAttributeNames(i);
    GoodPathEvaluable(m, FaceParts(i));
  }

  lemma EntryResolves(m: Mapper, u: Uris, e: Entry)
    requires m.prefixes == Prefixes(u) && Known(u) && GoodEntry(m, e)
    ensures Resolve(m, EntryParts(e))
         == Path([Step(u.semaine, "user-state", Any)] + EntrySteps(u, e), Attribute(EntryAttribute(e)))
  {
    hide IsName, Prefixes, Declared;
    PrefixesDeclared(m, u);
    var parts := EntryParts(e);
    assert ResolveStep(m, parts.steps[0]) == Step(u.semaine, "user-state", Any);
    assert ResolveStep(m, parts.steps[1]) == EntrySteps(u, e)[0];
    if |parts.steps| > 2 {
      assert ResolveStep(m, parts.steps[2]) == EntrySteps(u, e)[1];
    }
  }

  lemma FaceResolves(m: Mapper, u: Uris, i: Index)
    requires m.prefixes == Prefixes(u) && Known(u)
    ensures Resolve(m, FaceParts(i)) == FacePath(u.semaine, u.bml, i)
  {
    hide IsName, Prefixes, Declared;
    PrefixesDeclared(m, u);
    assert ResolveStep(m, RootPart()) == Step(u.semaine, "user-state", Any);
    assert ResolveStep(m, Part("bml", "bml", "", "")) == Step(u.bml, "bml", Any);
    assert ResolveStep(m, Part("bml", "face", TESTS[i], "")) == Step(u.bml, "face", TestOfEntry(i));
  }

  // ---------- Entries keep away from faces and from each other ----------

  lemma NamesApart()
    ensures "emotion" != "bml" && "head" != "face" && "dimension" != "intensity" && "dimension" != "category"
    ensures "intensity" != "category" && "value" != "name" && "dimension-set" != "category-set"
  {
    assert "emotion"[0] == 'e' && "bml"[0] == 'b' && "head"[0] == 'h' && "face"[0] == 'f' && "dimension"[0] == 'd';
    assert "intensity"[0] == 'i' && "category"[0] == 'c' && "value"[0] == 'v' && "name"[0] == 'n';
    assert "dimension-set"[0] == 'd' && "category-set"[0] == 'c';
  }

  lemma EntryIsOther(m: Mapper, u: Uris, e: Entry)
    requires GoodEntry(m, e)
    ensures OtherPath(u.semaine, u.bml,
                      Path([Step(u.semaine, "user-state", Any)] + EntrySteps(u, e), Attribute(EntryAttribute(e))))
  {
    hide IsName, Quotable;
    NamesApart();
    var p := [Step(u.semaine, "user-state", Any)] + EntrySteps(u, e);
    assert p[1..] == EntrySteps(u, e);
  }

  lemma EntriesApart(m: Mapper, u: Uris, d: Entry, e: Entry)
    requires GoodEntry(m, d) && GoodEntry(m, e) && d != e
    ensures !Interferes(EntrySteps(u, d), Attribute(EntryAttribute(d)), EntrySteps(u, e), Attribute(EntryAttribute(e)))
  {
    hide IsName, Quotable;
    NamesApart();
    var p, q := EntrySteps(u, d), EntrySteps(u, e);
    assert |p| == 2 ==> p[1..] == [p[1]] && p[1..][1..] == [];
    assert |q| == 2 ==> q[1..] == [q[1]] && q[1..][1..] == [];
    assert |p| == 1 ==> p[1..] == [];
    assert |q| == 1 ==> q[1..] == [];
    var t, t' := Attribute(EntryAttribute(d)), Attribute(EntryAttribute(e));
    assert Interferes([], t, [], t') <==> t == t';
    if |p| == 2 && |q| == 2 && p[0].ns == q[0].ns && CanMeet(p[0].test, q[0].test) {
      assert !Interferes(p[1..], t, q[1..], t');
    }
  }

  // ---------- The table ----------

  /** Good entries, no two of them for one place. */
  ghost predicate GoodEntries(m: Mapper, entries: map<string, Entry>) {
    && (forall n :: n in entries ==> GoodEntry(m, entries[n]))
    && forall n, n' :: n in entries && n' in entries && n != n' ==> entries[n] != entries[n']
  }

  lemma FaceTableAt(n: string)
    ensures n in FaceTable() <==> n in ORDER
    ensures n in ORDER ==> FaceTable()[n] == Print(FaceParts(IndexIn(n)))
  {
    hide Print;
    NamesDiffer();
    if n in ORDER {
      assert n == ORDER[IndexIn(n)];
    }
  }

  lemma TableAt(u: Uris, entries: map<string, Entry>, n: string)
    ensures var names := TableWith(u, entries).names;
            && (n in names <==> n in ORDER || n in entries)
            && (n in ORDER ==> names[n] == Print(FaceParts(IndexIn(n))))
            && (n in entries && n !in ORDER ==> names[n] == Print(EntryParts(entries[n])))
  {
    hide Print, FaceTable, EntryParts;
    FaceTableAt(n);
  }

  lemma TablePath(u: Uris, entries: map<string, Entry>, n: string)
    requires Known(u) && GoodEntries(TableWith(u, entries), entries) && n in TableWith(u, entries).names
    ensures var m := TableWith(u, entries);
            && Evaluable(m, m.names[n])
            && (n in ORDER ==> PathOf(m, m.names[n]) == FacePath(u.semaine, u.bml, IndexIn(n)))
            && (n !in ORDER ==>
                  && n in entries
                  && PathOf(m, m.names[n]) == Path([Step(u.semaine, "user-state", Any)] + EntrySteps(u, entries[n]),
                                                   Attribute(EntryAttribute(entries[n]))))
  {
    hide Print, FaceTable, EntryParts, FaceParts, Evaluable, GoodEntry, Resolve, Split, FacePath, EntrySteps;
    var m := TableWith(u, entries);
    TableAt(u, entries, n);
    if n in ORDER {
      FaceEvaluable(m, u, IndexIn(n));
      FaceResolves(m, u, IndexIn(n));
    } else {
      EntryEvaluable(m, u, entries[n]);
      EntryResolves(m, u, entries[n]);
    }
  }

  /** Any good entries beside the faces make a table to which the exact condition applies. */
  lemma TableHasFaces(u: Uris, entries: map<string, Entry>)
    requires Known(u) && GoodEntries(TableWith(u, entries), entries)
    ensures HasFaces(TableWith(u, entries), u.semaine, u.bml)
  {
    hide TableWith, Evaluable, PathOf, FacePath, EntrySteps, GoodEntry, OtherPath, EntryAttribute;
    var m := TableWith(u, entries);
    forall n | n in m.names ensures Evaluable(m, m.names[n]) {
      TablePath(u, entries, n);
    }
    forall i: Index ensures ORDER[i] in m.names && PathOf(m, m.names[ORDER[i]]) == FacePath(u.semaine, u.bml, i) {
      TableAt(u, entries, ORDER[i]);
      FaceNameIsAt(i);
      TablePath(u, entries, ORDER[i]);
    }
    forall n | n in m.names && n !in ORDER
      ensures OtherPath(u.semaine, u.bml, PathOf(m, m.names[n]))
    {
      TablePath(u, entries, n);
      EntryIsOther(m, u, entries[n]);
    }
    forall n, n' | n in m.names && n' in m.names && n !in ORDER && n' !in ORDER && n != n'
      ensures PathOf(m, m.names[n]).steps != [] && PathOf(m, m.names[n']).steps != []
      ensures Apart(PathOf(m, m.names[n]), PathOf(m, m.names[n']))
    {
      TablePath(u, entries, n);
      TablePath(u, entries, n');
      EntriesApart(m, u, entries[n], entries[n']);
      PathsApart(u, entries[n], entries[n']);
    }
  }

  lemma PathsApart(u: Uris, d: Entry, e: Entry)
    requires !Interferes(EntrySteps(u, d), Attribute(EntryAttribute(d)), EntrySteps(u, e), Attribute(EntryAttribute(e)))
    ensures Apart(Path([Step(u.semaine, "user-state", Any)] + EntrySteps(u, d), Attribute(EntryAttribute(d))),
                  Path([Step(u.semaine, "user-state", Any)] + EntrySteps(u, e), Attribute(EntryAttribute(e))))
  {
    hide EntrySteps, EntryAttribute, Interferes;
    var root := [Step(u.semaine, "user-state", Any)];
    assert (root + EntrySteps(u, d))[1..] == EntrySteps(u, d) && (root + EntrySteps(u, e))[1..] == EntrySteps(u, e);
  }

  // ---------- The shipped entries ----------

  function VoiceLeaves(): map<string, Entry> {
    map["pitchDirection" := Spotted(Leaf("pitch", "direction")),
        "speaking" := Spotted(Leaf("speaking", "status")),
        "vocalization" := Spotted(Leaf("vocalization", "name"))]
  }

  function PersonLeaves(): map<string, Entry> {
    map["facePresent" := Spotted(Leaf("face-present", "status")), "gender" := Spotted(Leaf("gender", "name"))]
  }

  function UtteranceLeaves(): map<string, Entry> {
    map["userUtterance" := Spotted(Leaf("userutterance", "utterance")),
        "userUtteranceStartTime" := Spotted(Leaf("userutterance", "starttime")),
        "userUtteranceFeatures" := Spotted(Leaf("userutterance", "features"))]
  }

  function UserLeaves(): map<string, Entry> {
    VoiceLeaves() + PersonLeaves() + UtteranceLeaves()
  }

  function UserGestures(): map<string, Entry> {
    map["headGesture" := Gesture("type"), "headGestureStarted" := Gesture("start"),
        "headGestureStopped" := Gesture("end")]
  }

  const INTEREST_SET := SETS + "interest.xml"
  const FSRE_SET := "http://www.example.com/emotion" + "/dimension/FSRE.xml"
  const QUADRANT_SET := "http://www.semaine-" + ("project.eu/emo/category/" + "four-quadrants.xml")

  /** The short names of dimensions are the dimensions' own names. */
  const FSRE := ["valence", "arousal", "potency", "unpredictability"]

  function UserDimensions(): map<string, Entry> {
    (map n | n in FSRE :: Spotted(Dimension(FSRE_SET, n)))
    + map["interest" := Spotted(Dimension(INTEREST_SET, "interest"))]
  }

  function UserEmotion(): map<string, Entry> {
    map["intensity" := Intensity, "emotion-quadrant" := Category(QUADRANT_SET)]
  }

  function UserEntries(): map<string, Entry> {
    UserLeaves() + UserGestures() + UserDimensions() + UserEmotion()
  }

  lemma QuotableUserPieces()
    ensures Quotable("interest.xml") && Quotable("/dimension/FSRE.xml")
  {
  }

  lemma QuotableHost()
    ensures Quotable("http://www.example.com/emotion")
  {
  }

  lemma QuotableQuadrant()
    ensures Quotable("project.eu/emo/category/") && Quotable("four-quadrants.xml")
  {
  }

  lemma QuotableUserSets()
    ensures Quotable(INTEREST_SET) && Quotable(FSRE_SET) && Quotable(QUADRANT_SET)
  {
    hide Quotable;
    QuotablePieces();
    QuotableUserPieces();
    QuotableHost();
    QuotableQuadrant();
    QuotableJoin("http://www.semaine-", "project.eu/emo/dimension/");
    QuotableJoin(SETS, "interest.xml");
    QuotableJoin("http://www.example.com/emotion", "/dimension/FSRE.xml");
    QuotableJoin("project.eu/emo/category/", "four-quadrants.xml");
    QuotableJoin("http://www.semaine-", "project.eu/emo/category/" + "four-quadrants.xml");
  }

  lemma QuotableUserDimensions(n: string)
    requires n in FSRE || n == "interest"
    ensures Quotable(n)
  {
  }

  /** Good leaves, no two for one place, each on a child with one of the given initials. */
  ghost predicate GoodLeaves(m: Mapper, leaves: map<string, Entry>, initials: set<char>) {
    && (forall n :: n in leaves ==>
          && leaves[n].Spotted? && leaves[n].spot.Leaf? && GoodEntry(m, leaves[n])
          && leaves[n].spot.child != "" && leaves[n].spot.child[0] in initials)
    && forall n, n' :: n in leaves && n' in leaves && n != n' ==> leaves[n] != leaves[n']
  }

  lemma VoiceNames()
    ensures IsName("pitch") && IsName("speaking") && IsName("vocalization")
  {
  }

  lemma PersonNames()
    ensures IsName("face-present") && IsName("gender") && IsName("userutterance")
  {
  }

  lemma LeafAttributes()
    ensures IsAttributeName("direction") && IsAttributeName("status")
  {
    assert "direction"[0] == 'd' && "status"[0] == 's' && "xmlns"[0] == 'x';
  }

  lemma UtteranceAttributes()
    ensures IsAttributeName("features")
    ensures "utterance" != "starttime" && "utterance" != "features" && "starttime" != "features"
  {
    assert "utterance"[0] == 'u' && "starttime"[0] == 's' && "features"[0] == 'f' && "xmlns"[0] == 'x';
  }

  /** A child whose initial is neither of these is neither of these elements. */
  lemma ByInitial(child: string)
    requires child != "" && child[0] != 'e' && child[0] != 'b'
    ensures child != "emotion" && child != "bml"
  {
    assert "emotion"[0] == 'e' && "bml"[0] == 'b';
  }

  lemma VoiceGood(m: Mapper)
    ensures GoodLeaves(m, VoiceLeaves(), {'p', 's', 'v'})
  {
    hide IsName, Quotable, Declared;
    VoiceNames();
    LeafAttributes();
    FixedNames();
    assert "pitch"[0] == 'p' && "speaking"[0] == 's' && "vocalization"[0] == 'v';
    ByInitial("pitch");
    ByInitial("speaking");
    ByInitial("vocalization");
  }

  lemma PersonGood(m: Mapper)
    ensures GoodLeaves(m, PersonLeaves(), {'f', 'g'})
  {
    hide IsName, Quotable, Declared;
    PersonNames();
    LeafAttributes();
    FixedNames();
    assert "face-present"[0] == 'f' && "gender"[0] == 'g';
    ByInitial("face-present");
    ByInitial("gender");
  }

  lemma UtteranceGood(m: Mapper)
    ensures GoodLeaves(m, UtteranceLeaves(), {'u'})
  {
    hide IsName, Quotable, Declared;
    PersonNames();
    UtteranceAttributes();
    AgentAttributes();
    assert "userutterance"[0] == 'u';
    ByInitial("userutterance");
  }

  lemma LeavesJoin(m: Mapper, a: map<string, Entry>, x: set<char>, b: map<string, Entry>, y: set<char>)
    requires GoodLeaves(m, a, x) && GoodLeaves(m, b, y) && x !! y
    ensures GoodLeaves(m, a + b, x + y)
  {
    hide GoodEntry;
    forall n, n' | n in a + b && n' in a + b && n != n' ensures (a + b)[n] != (a + b)[n'] {
      if n in b && n' !in b {
        assert b[n].spot.child[0] in y && a[n'].spot.child[0] in x;
      } else if n !in b && n' in b {
        assert a[n].spot.child[0] in x && b[n'].spot.child[0] in y;
      }
    }
  }

  lemma LeavesGood(m: Mapper)
    ensures GoodLeaves(m, UserLeaves(), {'p', 's', 'v'} + {'f', 'g'} + {'u'})
  {
    hide GoodLeaves, VoiceLeaves, PersonLeaves, UtteranceLeaves;
    VoiceGood(m);
    PersonGood(m);
    UtteranceGood(m);
    LeavesJoin(m, VoiceLeaves(), {'p', 's', 'v'}, PersonLeaves(), {'f', 'g'});
    LeavesJoin(m, VoiceLeaves() + PersonLeaves(), {'p', 's', 'v'} + {'f', 'g'}, UtteranceLeaves(), {'u'});
  }

  lemma GestureAttributes()
    ensures IsAttributeName("type") && IsAttributeName("start") && IsAttributeName("end")
    ensures "type" != "start" && "type" != "end" && "start" != "end"
  {
    assert "type"[0] == 't' && "start"[0] == 's' && "end"[0] == 'e' && "xmlns"[0] == 'x';
  }

  lemma GesturesGood(m: Mapper)
    ensures forall n :: n in UserGestures() ==> UserGestures()[n].Gesture? && GoodEntry(m, UserGestures()[n])
    ensures forall n, n' :: n in UserGestures() && n' in UserGestures() && n != n' ==>
              UserGestures()[n] != UserGestures()[n']
  {
    hide IsName;
    GestureAttributes();
  }

  lemma DimensionsGood(m: Mapper)
    requires Declared(m, "emotion")
    ensures forall n :: n in UserDimensions() ==>
              var e := UserDimensions()[n];
              e.Spotted? && e.spot.Dimension? && e.spot.name == n && GoodEntry(m, e)
  {
    hide IsName, Quotable;
    QuotableUserSets();
    forall n | n in UserDimensions() ensures Quotable(n) {
      QuotableUserDimensions(n);
    }
  }

  /** A short name has a leaf, a gesture, the dimension of that very name, or one of the last two. */
  lemma EntryAt(m: Mapper, n: string)
    requires n in UserEntries() && Declared(m, "emotion")
    ensures var e := UserEntries()[n];
            && GoodEntry(m, e)
            && match e
               case Spotted(Leaf(_, _)) => n in UserLeaves() && e == UserLeaves()[n]
               case Spotted(Dimension(_, name)) => name == n
               case Gesture(_) => n in UserGestures() && e == UserGestures()[n]
               case Intensity => n == "intensity"
               case Category(_) => n == "emotion-quadrant"
  {
    hide UserLeaves, UserGestures, UserDimensions, GoodSpot, IsName, Quotable;
    LeavesGood(m);
    GesturesGood(m);
    DimensionsGood(m);
    QuotableUserSets();
  }

  lemma EntriesGood(m: Mapper)
    requires Declared(m, "emotion")
    ensures GoodEntries(m, UserEntries())
  {
    hide UserLeaves, UserGestures, UserEntries, GoodEntry, Declared;
    LeavesGood(m);
    GesturesGood(m);
    forall n | n in UserEntries() ensures GoodEntry(m, UserEntries()[n]) {
      EntryAt(m, n);
    }
    forall n, n' | n in UserEntries() && n' in UserEntries() && n != n' ensures UserEntries()[n] != UserEntries()[n'] {
      EntryAt(m, n);
      EntryAt(m, n');
    }
  }

  function ShippedUserState(u: Uris): Mapper {
    TableWith(u, UserEntries())
  }

  lemma ShippedHasFaces(u: Uris)
    requires Known(u)
    ensures HasFaces(ShippedUserState(u), u.semaine, u.bml)
  {
    hide HasFaces, UserEntries, Declared, Print, GoodEntries;
    PrefixesDeclared(ShippedUserState(u), u);
    EntriesGood(ShippedUserState(u));
    TableHasFaces(u, UserEntries());
  }

  /**
   With the shipped user-state table, for every choice of values for its twenty-four names: they
   survive the round trip exactly when the times of the expression and of the action units are apart.
   */
  lemma ShippedRoundTripIff(u: Uris, order: seq<string>, info: Info)
    requires Known(u) && VisitsInOrder(order, info) && info.Keys <= ShippedUserState(u).names.Keys
    ensures var m := ShippedUserState(u);
            var b := Build(m, order, info);
            && b.error.None?
            && (b.doc.None? <==> NonEmpty(info) == map[])
            && (b.doc.Some? ==>
                  (Analyse(m, b.doc, "user-state", u.semaine) == Success(NonEmpty(info)) <==> TimesApart(info)))
  {
    hide HasFaces, ShippedUserState, Build, Analyse, NonEmpty, TimesApart;
    ShippedHasFaces(u);
    UserRoundTripIff(ShippedUserState(u), u.semaine, u.bml, order, info);
  }

  // ---------- Two ways to fail ----------

  lemma {:induction false} OnlyFaceNames(info: Info, k: nat)
    requires k <= 6
    ensures FaceNames(InOrder(info, k)) == InOrder(info, k)
  {
    if k > 0 {
      OnlyFaceNames(info, k - 1);
      var init := InOrder(info, k - 1);
      assert (init + [ORDER[k - 1]])[..|init|] == init;
      FaceNameIsAt(k - 1);
    }
  }

  /** Values for face entries alone can be visited in the order of the map. */
  lemma FacesVisited(info: Info)
    requires forall n :: n in info ==> n in ORDER
    ensures VisitsInOrder(InOrder(info, 6), info)
  {
    hide InOrder, FaceNames;
    OnlyFaceNames(info, 6);
    forall n ensures n in InOrder(info, 6) <==> n in info {
      if n in ORDER {
        InOrderVisits(info, 6, IndexIn(n));
      }
    }
  }

  /** What the shipped table reads for a face entry when only face entries are given. */
  lemma ShippedReads(u: Uris, info: Info, i: Index)
    requires Known(u) && (forall n :: n in info ==> n in ORDER) && exists n :: n in info && info[n] != ""
    ensures var m := ShippedUserState(u);
            var b := Build(m, InOrder(info, 6), info);
            && b.error.None? && b.doc.Some?
            && ORDER[i] in m.names && Evaluable(m, m.names[ORDER[i]])
            && Value(b.doc.value, PathOf(m, m.names[ORDER[i]])) == ReadBack(info, i)
  {
    hide HasFaces, ShippedUserState, Build, Evaluable, Value, PathOf, InOrder, ReadBack, FaceNames;
    var m := ShippedUserState(u);
    ShippedHasFaces(u);
    FacesVisited(info);
    forall n | n in info ensures n in m.names {
      FaceEntryPath(m, u.semaine, u.bml, n);
    }
    FaceNameIsAt(i);
    FaceEntryPath(m, u.semaine, u.bml, ORDER[i]);
    BuiltReads(m, u.semaine, u.bml, InOrder(info, 6), info, ORDER[i]);
  }

  /** Whatever four values are given, both start times go to one attribute: the units' one is lost. */
  lemma StartTimesCollide(u: Uris, units: string, unitsStart: string, shape: string, shapeStart: string)
    requires Known(u) && units != "" && unitsStart != "" && shape != "" && shapeStart != ""
    ensures var m := ShippedUserState(u);
            var info := map[ORDER[0] := units, ORDER[1] := unitsStart, ORDER[3] := shape, ORDER[4] := shapeStart];
            var b := Build(m, InOrder(info, 6), info);
            && b.error.None? && b.doc.Some?
            && ORDER[1] in m.names && Evaluable(m, m.names[ORDER[1]])
            && Value(b.doc.value, PathOf(m, m.names[ORDER[1]])) == shapeStart
  {
    hide ShippedUserState, Build, Evaluable, Value, PathOf, FacesAfter, ReadBack, InOrder;
    NamesDiffer();
    var info := map[ORDER[0] := units, ORDER[1] := unitsStart, ORDER[3] := shape, ORDER[4] := shapeStart];
    assert info[ORDER[0]] != "";
    ShippedReads(u, info, 1);
    ReadsBack(info, 1);
  }

  /** A start time that was never set is read: the action units' one, as the expression's. */
  lemma UnsetStartIsRead(u: Uris, units: string, unitsStart: string, shape: string)
    requires Known(u) && units != "" && unitsStart != "" && shape != ""
    ensures var m := ShippedUserState(u);
            var info := map[ORDER[0] := units, ORDER[1] := unitsStart, ORDER[3] := shape];
            var b := Build(m, InOrder(info, 6), info);
            && b.error.None? && b.doc.Some?
            && ORDER[4] !in info && ORDER[4] in m.names && Evaluable(m, m.names[ORDER[4]])
            && Value(b.doc.value, PathOf(m, m.names[ORDER[4]])) == unitsStart
  {
    hide ShippedUserState, Build, Evaluable, Value, PathOf, FacesAfter, ReadBack, InOrder;
    NamesDiffer();
    var info := map[ORDER[0] := units, ORDER[1] := unitsStart, ORDER[3] := shape];
    assert info[ORDER[0]] != "";
    ShippedReads(u, info, 4);
    ReadsBack(info, 4);
  }
}
