/**
 The entries of the user state that describe a face.  Six names write to attributes of `bml:face`,
 with and without an attribute test, so that times of the action units and of the expression can
 meet in one attribute.  Here a face is the map of its attributes.
 */
module FaceEntries {
  import opened Dom
  import opened StateDocument

  /** The names in the order of the map that holds them. */
  const ORDER := [
    "facialActionUnits", "facialActionUnitsStarted", "facialActionUnitsStopped",
    "facialExpression", "facialExpressionStarted", "facialExpressionStopped"]

  const TESTS := ["", "au", "au", "", "shape", "shape"]
  const ATTS := ["au", "start", "end", "shape", "start", "end"]

  /** A number of an entry, in the order of the map. */
  type Index = i: nat | i < 6

  lemma NamesDiffer()
    ensures |ORDER| == 6
    ensures forall i, j :: 0 <= i < j < 6 ==> ORDER[i] != ORDER[j]
  {
    assert |ORDER[0]| == 17 && |ORDER[1]| == 24 && |ORDER[2]| == 24;
    assert |ORDER[3]| == 16 && |ORDER[4]| == 23 && |ORDER[5]| == 23;
    assert ORDER[1][19] == 'a' && ORDER[2][19] == 'o' && ORDER[4][18] == 'a' && ORDER[5][18] == 'o';
  }

  function TestOfEntry(i: Index): Test {
    if TESTS[i] == "" then Any else Has(TESTS[i])
  }

  // ---------- Faces and their attributes ----------

  /** The faces of a document, each by its attributes. */
  type Faces = seq<map<string, string>>

  /** Writes an attribute of the first face that passes a test, or of a new one. */
  function PutFace(faces: Faces, test: Test, a: string, v: string): Faces {
    if faces == [] then [TestAttrs(test)[a := v]]
    else if Passes(test, faces[0]) then [faces[0][a := v]] + faces[1..]
    else [faces[0]] + PutFace(faces[1..], test, a, v)
  }

  /** The attribute of the first face that passes a test and has it; the empty string if none has. */
  function GetFace(faces: Faces, test: Test, a: string): string {
    if faces == [] then ""
    else if Passes(test, faces[0]) && a in faces[0] then faces[0][a]
    else GetFace(faces[1..], test, a)
  }

  // ---------- Writing the entries in order ----------

  /** What is given for an entry: the empty string when its name is not set. */
  function Given(info: Info, i: Index): string {
    if ORDER[i] in info then info[ORDER[i]] else ""
  }

  /** The names that are set, in the order of the map. */
  function InOrder(info: Info, k: nat): (order: seq<string>)
    requires k <= 6
    ensures forall n :: n in order ==> n in info
  {
    if k == 0 then []
    else if ORDER[k - 1] in info then InOrder(info, k - 1) + [ORDER[k - 1]]
    else InOrder(info, k - 1)
  }

  /** The faces after the first `k` entries. */
  function FacesAfter(info: Info, k: nat): Faces
    requires k <= 6
  {
    if k == 0 then []
    else
      var faces := FacesAfter(info, k - 1);
      if Given(info, k - 1) == "" then faces else PutFace(faces, TestOfEntry(k - 1), ATTS[k - 1], Given(info, k - 1))
  }

  /** What an entry reads back after building. */
  function ReadBack(info: Info, i: Index): string {
    GetFace(FacesAfter(info, 6), TestOfEntry(i), ATTS[i])
  }

  // ---------- The exact condition ----------

  /** The attributes with one more, unless there is nothing to write. */
  function With(attrs: map<string, string>, a: string, v: string): map<string, string> {
    if v == "" then attrs else attrs[a := v]
  }

  function WithTimes(attrs: map<string, string>, start: string, end: string): map<string, string> {
    With(With(attrs, "start", start), "end", end)
  }

  lemma AttsDiffer()
    ensures "au" != "start" && "au" != "end" && "au" != "shape"
    ensures "start" != "end" && "start" != "shape" && "end" != "shape"
  {
    assert |"au"| == 2 && |"end"| == 3 && "start"[1] == 't' && "shape"[1] == 'h';
  }

  predicate UnitsGiven(info: Info) {
    Given(info, 0) != "" || Given(info, 1) != "" || Given(info, 2) != ""
  }

  function UnitsFace(info: Info): map<string, string> {
    WithTimes(map["au" := Given(info, 0)], Given(info, 1), Given(info, 2))
  }

  lemma UnitsPhase(info: Info)
    ensures FacesAfter(info, 3) == if UnitsGiven(info) then [UnitsFace(info)] else []
  {
    hide Given;
    AttsDiffer();
    var f1 := FacesAfter(info, 1);
    assert f1 == if Given(info, 0) == "" then [] else [map["au" := Given(info, 0)]] by {
      assert FacesAfter(info, 0) == [];
    }
    var f2 := FacesAfter(info, 2);
    assert f2 == if Given(info, 0) == "" && Given(info, 1) == "" then []
                 else [With(map["au" := Given(info, 0)], "start", Given(info, 1))];
  }

  predicate ShapeGiven(info: Info) {
    Given(info, 3) != "" || Given(info, 4) != "" || Given(info, 5) != ""
  }

  /** The face that the expression's entries write: the first, if it has a shape to write. */
  function ShapeFace(info: Info): map<string, string> {
    var shared := if UnitsGiven(info) && Given(info, 3) != "" then UnitsFace(info) else map[];
    WithTimes(shared["shape" := Given(info, 3)], Given(info, 4), Given(info, 5))
  }

  /** All entries written: one face for all, or a second one for times of an expression without shape. */
  function AllFaces(info: Info): Faces {
    if !ShapeGiven(info) then (if UnitsGiven(info) then [UnitsFace(info)] else [])
    else if UnitsGiven(info) && Given(info, 3) == "" then [UnitsFace(info), ShapeFace(info)]
    else [ShapeFace(info)]
  }

  lemma TimesOnLast(info: Info, faces: Faces, attrs: map<string, string>)
    requires (forall i :: 0 <= i < |faces| ==> "shape" !in faces[i])
    requires FacesAfter(info, 4) == faces + [attrs] && "shape" in attrs
    ensures FacesAfter(info, 6) == faces + [WithTimes(attrs, Given(info, 4), Given(info, 5))]
  {
    hide Given;
    AttsDiffer();
    PutOnLast(faces, attrs, "start", Given(info, 4));
    var next := With(attrs, "start", Given(info, 4));
    assert FacesAfter(info, 5) == faces + [next];
    PutOnLast(faces, next, "end", Given(info, 5));
  }

  lemma {:induction false} PutOnLast(faces: Faces, attrs: map<string, string>, a: string, v: string)
    requires (forall i :: 0 <= i < |faces| ==> "shape" !in faces[i]) && "shape" in attrs
    ensures PutFace(faces + [attrs], Has("shape"), a, v) == faces + [attrs[a := v]]
  {
    if faces == [] {
      assert faces + [attrs] == [attrs];
    } else {
      assert (faces + [attrs])[1..] == faces[1..] + [attrs];
      PutOnLast(faces[1..], attrs, a, v);
    }
  }

  lemma UnitsFaceHas(info: Info)
    ensures var f := UnitsFace(info);
            && "au" in f && f["au"] == Given(info, 0) && "shape" !in f
            && ("start" in f <==> Given(info, 1) != "") && ("start" in f ==> f["start"] == Given(info, 1))
            && ("end" in f <==> Given(info, 2) != "") && ("end" in f ==> f["end"] == Given(info, 2))
  {
    hide Given;
    AttsDiffer();
  }

  /** The expression's times go to a face of their own, as nothing was written for a shape. */
  lemma {:induction false} TimesOnNew(info: Info, faces: Faces)
    requires |faces| <= 1 && (forall i :: 0 <= i < |faces| ==> "shape" !in faces[i])
    requires FacesAfter(info, 4) == faces && Given(info, 3) == ""
    ensures FacesAfter(info, 6) ==
              if Given(info, 4) == "" && Given(info, 5) == "" then faces
              else faces + [WithTimes(map["shape" := ""], Given(info, 4), Given(info, 5))]
  {
    hide Given;
    AttsDiffer();
    PutOnNew(faces, "start", Given(info, 4));
    PutOnNew(faces, "end", Given(info, 5));
    if Given(info, 4) == "" {
      assert FacesAfter(info, 5) == faces;
    } else {
      var attrs := map["shape" := "", "start" := Given(info, 4)];
      assert FacesAfter(info, 5) == faces + [attrs];
      PutOnLast(faces, attrs, "end", Given(info, 5));
    }
  }

  lemma PutOnNew(faces: Faces, a: string, v: string)
    requires |faces| <= 1 && (forall i :: 0 <= i < |faces| ==> "shape" !in faces[i])
    ensures PutFace(faces, Has("shape"), a, v) == faces + [map["shape" := ""][a := v]]
  {
    if faces != [] {
      assert faces[1..] == [] && faces == [faces[0]];
    }
  }

  lemma FacesBuilt(info: Info)
    ensures FacesAfter(info, 6) == AllFaces(info)
  {
    hide Given, WithTimes;
    UnitsPhase(info);
    UnitsFaceHas(info);
    var faces := FacesAfter(info, 3);
    if Given(info, 3) == "" {
      assert FacesAfter(info, 4) == faces;
      TimesOnNew(info, faces);
      assert map[]["shape" := ""] == map["shape" := ""];
    } else {
      var attrs := if UnitsGiven(info) then UnitsFace(info) else map[];
      assert FacesAfter(info, 4) == [] + [attrs["shape" := Given(info, 3)]];
      TimesOnLast(info, [], attrs["shape" := Given(info, 3)]);
    }
  }

  /** The times of the action units and of the expression do not meet. */
  predicate TimesApart(info: Info) {
    || Given(info, 3) == "" || !UnitsGiven(info)
    || (Given(info, 1) == Given(info, 4) && Given(info, 2) == Given(info, 5))
  }

  lemma ShapeFaceHas(info: Info)
    ensures var f := ShapeFace(info);
            var shared := UnitsGiven(info) && Given(info, 3) != "";
            && "shape" in f && f["shape"] == Given(info, 3)
            && ("au" in f <==> shared) && (shared ==> f["au"] == Given(info, 0))
            && (if "start" in f then f["start"] else "")
            == (if Given(info, 4) != "" || !shared then Given(info, 4) else Given(info, 1))
            && (if "end" in f then f["end"] else "")
            == (if Given(info, 5) != "" || !shared then Given(info, 5) else Given(info, 2))
  {
    hide Given, UnitsGiven;
    AttsDiffer();
    UnitsFaceHas(info);
  }

  lemma ReadFaces(faces: Faces, test: Test, a: string)
    requires |faces| <= 2
    ensures GetFace(faces, test, a) ==
              if |faces| >= 1 && Passes(test, faces[0]) && a in faces[0] then faces[0][a]
              else if |faces| == 2 && Passes(test, faces[1]) && a in faces[1] then faces[1][a]
              else ""
  {
    if |faces| == 2 {
      assert faces[1..][0] == faces[1] && faces[1..][1..] == [];
      assert GetFace(faces[1..][1..], test, a) == "";
    }
    if |faces| == 1 {
      assert faces[1..] == [];
    }
  }

  /** What each entry reads back. */
  lemma ReadsBack(info: Info, i: Index)
    ensures ReadBack(info, i) ==
              if TimesApart(info) then Given(info, i)
              else match i
                   case 0 => Given(info, 0)
                   case 3 => Given(info, 3)
                   case 1 => if Given(info, 4) != "" then Given(info, 4) else Given(info, 1)
                   case 4 => if Given(info, 4) != "" then Given(info, 4) else Given(info, 1)
                   case _ => if Given(info, 5) != "" then Given(info, 5) else Given(info, 2)
  {
    hide Given, FacesAfter, UnitsFace, ShapeFace, GetFace;
    FacesBuilt(info);
    UnitsFaceHas(info);
    ShapeFaceHas(info);
    AttsDiffer();
    ReadFaces(AllFaces(info), TestOfEntry(i), ATTS[i]);
  }

  lemma {:induction false} InOrderVisits(info: Info, k: nat, i: Index)
    requires k <= 6
    ensures ORDER[i] in InOrder(info, k) <==> i < k && ORDER[i] in info
  {
    if k > 0 {
      InOrderVisits(info, k - 1, i);
      NamesDiffer();
    }
  }

  lemma ApartIffReadBack(info: Info)
    ensures TimesApart(info) <==> forall i: Index :: ReadBack(info, i) == Given(info, i)
  {
    hide ReadBack, Given, UnitsGiven;
    forall i: Index ensures TimesApart(info) ==> ReadBack(info, i) == Given(info, i) {
      ReadsBack(info, i);
    }
    if !TimesApart(info) {
      ReadsBack(info, 1);
      ReadsBack(info, 2);
      ReadsBack(info, 4);
      ReadsBack(info, 5);
    }
  }
}
