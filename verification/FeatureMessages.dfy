/** The sender that writes feature vectors, and the message that reads them when first asked. */
module FeatureMessages {
  import opened Prelude
  import opened PathSyntax
  import opened FeatureCodec

  datatype SendError = NamesNotSet | LengthsDiffer

  class FeatureSender<F> {
    const nf: NumberFormat<F>
    var featureNames: seq<string>

    constructor (nf: NumberFormat<F>)
      ensures this.nf == nf && featureNames == []
    {
      this.nf, featureNames := nf, [];
    }

    /** Feature names can be set once: further calls are refused. */
    method SetFeatureNames(names: seq<string>) returns (accepted: bool)
      modifies this
      ensures accepted <==> old(featureNames) == []
      ensures featureNames == if accepted then names else old(featureNames)
    {
      accepted := featureNames == [];
      if accepted {
        featureNames := names;
      }
    }

    /** The text that is sent for a feature vector, written line by line into a buffer. */
    method FeatureText(features: seq<F>) returns (r: Result<string, SendError>)
      ensures r.Success? <==> featureNames != [] && |featureNames| == |features|
      ensures r.Success? ==> r.value == Encode(nf, features, featureNames)
      ensures r == Failure(NamesNotSet) <==> featureNames == []
    {
      if featureNames == [] {
        return Failure(NamesNotSet);
      }
      if |featureNames| != |features| {
        return Failure(LengthsDiffer);
      }
      var buf := "";
      for i := 0 to |features|
        invariant buf + Encode(nf, features[i..], featureNames[i..]) == Encode(nf, features, featureNames)
      {
        EncodeMore(nf, buf, features, featureNames, i);
        buf := buf + nf.show(features[i]) + " " + featureNames[i] + "\n";
      }
      return Success(buf);
    }
  }

  class FeatureMessage<F> {
    const nf: NumberFormat<F>
    const text: string
    var features: seq<F>
    var featureNames: seq<string>
    ghost var decodings: nat

    /** Nothing is decoded yet, or the text has been decoded once; the vectors have one length. */
    ghost predicate Valid()
      reads this
    {
      && |features| == |featureNames|
      && (features == [] || (features == Decode(nf, text).values && decodings == 1))
      && (features == [] && Lines(text) != [] ==> decodings == 0)
    }

    constructor (nf: NumberFormat<F>, text: string)
      ensures Valid() && this.nf == nf && this.text == text
      ensures features == [] && featureNames == [] && decodings == 0
    {
      this.nf, this.text, features, featureNames, decodings := nf, text, [], [], 0;
    }

    /** Appends what the text's complete lines say to both vectors. */
    method ReadFromTextMessage()
      modifies this
      ensures features == old(features) + Decode(nf, text).values
      ensures featureNames == old(featureNames) + Decode(nf, text).names
      ensures decodings == old(decodings) + 1
    {
      hide Lines, DecodeLine, DecodeLines, Find;
      var pos := 0;
      ghost var done: seq<string> := [];
      assert text[0..] == text;
      NothingDecoded(nf);
      while true
        invariant pos <= |text| && done + Lines(text[pos..]) == Lines(text)
        invariant features == old(features) + DecodeLines(nf, done).values
        invariant featureNames == old(featureNames) + DecodeLines(nf, done).names
        invariant decodings == old(decodings)
        decreases |text| - pos
      {
        var rest := text[pos..];
        var end := Find(rest, '\n', 0);
        if end == -1 {
          LinesUnfold(rest);
          break;
        }
        var line := rest[..end];
        var decoded := DecodeLine(nf, line);
        features := features + [decoded.0];
        featureNames := featureNames + [decoded.1];
        NextLine(text, pos, done, end);
        DecodeMore(nf, done, line);
        done := done + [line];
        pos := pos + end + 1;
      }
      assert done == Lines(text);
      decodings := decodings + 1;
    }

    /** The features, decoded on the first call; `failed` is the assertion that they are there. */
    method GetFeatureVector() returns (r: seq<F>, failed: bool)
      requires Valid()
      modifies this
      ensures Valid() && r == features == Decode(nf, text).values
      ensures featureNames == if old(features) == [] then Decode(nf, text).names else old(featureNames)
      ensures failed <==> Lines(text) == []
    {
      DecodedNames(nf, Lines(text));
      if features == [] {
        ReadFromTextMessage();
      }
      r, failed := features, features == [];
    }

    /** The names, decoded on the first call unless set by then. */
    method GetFeatureNames() returns (r: seq<string>, failed: bool)
      requires Valid()
      modifies this
      ensures Valid() && features == Decode(nf, text).values
      ensures r == featureNames == if old(features) == [] then Decode(nf, text).names else old(featureNames)
      ensures failed <==> Lines(text) == []
    {
      DecodedNames(nf, Lines(text));
      if featureNames == [] {
        ReadFromTextMessage();
      }
      r, failed := featureNames, featureNames == [];
    }

    /** Replaces the names: refused unless there are as many as features decoded so far. */
    method SetFeatureNames(names: seq<string>) returns (accepted: bool)
      requires Valid()
      modifies this
      ensures Valid() && features == old(features) && decodings == old(decodings)
      ensures accepted <==> |names| == |old(features)|
      ensures featureNames == if accepted then names else old(featureNames)
    {
      accepted := |names| == |features|;
      if accepted {
        featureNames := names;
      }
    }
  }

  lemma EncodeMore<F>(nf: NumberFormat<F>, buf: string, values: seq<F>, names: seq<string>, i: nat)
    requires i < |values| == |names|
    ensures buf + Encode(nf, values[i..], names[i..])
         == buf + nf.show(values[i]) + " " + names[i] + "\n" + Encode(nf, values[i + 1..], names[i + 1..])
  {
    assert values[i..][1..] == values[i + 1..] && names[i..][1..] == names[i + 1..];
    var line, rest := EncodeLine(nf, values[i], names[i]), Encode(nf, values[i + 1..], names[i + 1..]);
    assert buf + (line + rest) == buf + line + rest;
    assert buf + line == buf + nf.show(values[i]) + " " + names[i] + "\n";
  }

  lemma NothingDecoded<F>(nf: NumberFormat<F>)
    ensures DecodeLines(nf, []) == Features([], [])
  {
  }

  lemma DecodeMore<F>(nf: NumberFormat<F>, done: seq<string>, line: string)
    ensures DecodeLines(nf, done + [line])
         == Features(DecodeLines(nf, done).values + [DecodeLine(nf, line).0],
                     DecodeLines(nf, done).names + [DecodeLine(nf, line).1])
  {
    assert (done + [line])[..|done|] == done;
  }

  lemma NextLine(text: string, pos: nat, done: seq<string>, end: nat)
    requires pos <= |text| && done + Lines(text[pos..]) == Lines(text)
    requires Find(text[pos..], '\n', 0) == end
    ensures done + [text[pos..][..end]] + Lines(text[pos + end + 1..]) == Lines(text)
  {
    hide Lines, Find;
    var rest := text[pos..];
    LinesUnfold(rest);
    var line, later := [rest[..end]], Lines(rest[end + 1..]);
    assert done + (line + later) == done + line + later;
    assert rest[end + 1..] == text[pos + end + 1..];
  }

  lemma LinesUnfold(text: string)
    ensures Lines(text) == var end := Find(text, '\n', 0);
                           if end == -1 then [] else [text[..end]] + Lines(text[end + 1..])
  {
  }
}
