/** Feature vectors as text: one line per feature, a number, a blank and a name. */
module FeatureCodec {
  import opened Prelude
  import opened PathSyntax
  import opened StateConfig

  /** How numbers are written, and how a number is read off the front of a text. */
  datatype NumberFormat<!F> = NumberFormat(
    show: F -> string, scan: string -> Option<(F, string)>, zero: F)

  /** A number written before a blank is read back, and is written without a line end. */
  ghost predicate Agrees<F(!new)>(nf: NumberFormat<F>) {
    forall x, rest :: '\n' !in nf.show(x) && nf.scan(nf.show(x) + " " + rest) == Some((x, " " + rest))
  }

  datatype Features<F> = Features(values: seq<F>, names: seq<string>)

  // ---------- Writing ----------

  function EncodeLine<F>(nf: NumberFormat<F>, x: F, name: string): string {
    nf.show(x) + " " + name + "\n"
  }

  function Encode<F>(nf: NumberFormat<F>, values: seq<F>, names: seq<string>): string
    requires |values| == |names|
  {
    if values == [] then "" else EncodeLine(nf, values[0], names[0]) + Encode(nf, values[1..], names[1..])
  }

  // ---------- Reading ----------

  /** The lines of a text that a line end completes. */
  function Lines(text: string): seq<string>
    decreases |text|
  {
    var end := Find(text, '\n', 0);
    if end == -1 then [] else [text[..end]] + Lines(text[end + 1..])
  }

  function TakeWord(s: string): string {
    if s == "" || IsSpace(s[0]) then "" else [s[0]] + TakeWord(s[1..])
  }

  /** The first blank-delimited word, or nothing. */
  function FirstWord(s: string): string {
    TakeWord(DropLeft(s))
  }

  function DecodeLine<F>(nf: NumberFormat<F>, line: string): (F, string) {
    match nf.scan(line)
    case None => (nf.zero, "")
    case Some((x, rest)) => (x, FirstWord(rest))
  }

  function DecodeLines<F>(nf: NumberFormat<F>, lines: seq<string>): Features<F> {
    if lines == [] then Features([], [])
    else
      var init := DecodeLines(nf, lines[..|lines| - 1]);
      var last := DecodeLine(nf, lines[|lines| - 1]);
      Features(init.values + [last.0], init.names + [last.1])
  }

  function Decode<F>(nf: NumberFormat<F>, text: string): Features<F> {
    DecodeLines(nf, Lines(text))
  }

  // ---------- What reading gives for any text ----------

  function JoinLines(lines: seq<string>): string {
    if lines == [] then "" else lines[0] + "\n" + JoinLines(lines[1..])
  }

  /** The lines are what stands before each line end; a last line without one is left out. */
  lemma {:induction false} LinesAreComplete(lines: seq<string>, tail: string)
    requires '\n' !in tail && forall i :: 0 <= i < |lines| ==> '\n' !in lines[i]
    ensures Lines(JoinLines(lines) + tail) == lines
    decreases |lines|
  {
    hide Lines;
    if lines == [] {
      assert JoinLines(lines) + tail == tail;
      NoLineEnd(tail);
    } else {
      LinesAreComplete(lines[1..], tail);
      var rest := JoinLines(lines[1..]) + tail;
      assert JoinLines(lines) + tail == lines[0] + "\n" + rest;
      LinesCons(lines[0], rest);
      assert lines == [lines[0]] + lines[1..];
    }
  }

  lemma NoLineEnd(tail: string)
    requires '\n' !in tail
    ensures Lines(tail) == []
  {
    assert tail[0..|tail|] == tail;
    FindFrom(tail, '\n', 0, |tail|);
  }

  /** A number, blanks, a word, and anything after a further blank: the number and the word are read. */
  lemma LineReads<F(!new)>(nf: NumberFormat<F>, x: F, blanks: string, word: string, more: string)
    requires Agrees(nf) && Blank(blanks) && word != "" && OneWord(word) && (more != "" ==> IsSpace(more[0]))
    ensures DecodeLine(nf, nf.show(x) + " " + (blanks + word + more)) == (x, word)
  {
    hide Agrees;
    var rest := blanks + word + more;
    assert nf.scan(nf.show(x) + " " + rest) == Some((x, " " + rest)) by {
      ReadsBack(nf, x, rest);
    }
    assert " " + rest == " " + blanks + (word + more);
    DropLeftBlank(" " + blanks, word + more);
    assert (word + more)[0] == word[0];
    assert DropLeft(word + more) == word + more;
    WordThenBlank(word, more);
  }

  lemma ReadsBack<F(!new)>(nf: NumberFormat<F>, x: F, rest: string)
    requires Agrees(nf)
    ensures nf.scan(nf.show(x) + " " + rest) == Some((x, " " + rest))
  {
  }

  lemma {:induction false} WordThenBlank(word: string, more: string)
    requires OneWord(word) && (more != "" ==> IsSpace(more[0]))
    ensures TakeWord(word + more) == word
    decreases |word|
  {
    if word == "" {
      assert word + more == more;
    } else {
      assert (word + more)[0] == word[0] && (word + more)[1..] == word[1..] + more;
      WordThenBlank(word[1..], more);
    }
  }

  /** A line that no number starts gives zero and no name. */
  lemma UnreadableLine<F>(nf: NumberFormat<F>, line: string)
    requires nf.scan(line) == None
    ensures DecodeLine(nf, line) == (nf.zero, "")
  {
  }

  // ---------- The round trip ----------

  predicate OneWord(s: string) {
    forall i :: 0 <= i < |s| ==> !IsSpace(s[i])
  }

  lemma {:induction false} WordOfWord(s: string)
    ensures OneWord(TakeWord(s))
    ensures OneWord(s) ==> TakeWord(s) == s
  {
    if s != "" && !IsSpace(s[0]) {
      WordOfWord(s[1..]);
      assert OneWord(s) ==> OneWord(s[1..]);
      assert forall i :: 1 <= i < |TakeWord(s)| ==> TakeWord(s)[i] == TakeWord(s[1..])[i - 1];
    }
  }

  lemma FirstWordAfterBlank(name: string)
    requires OneWord(name)
    ensures FirstWord(" " + name) == name
  {
    DropLeftBlank(" ", name);
    assert DropLeft(name) == name;
    WordOfWord(name);
  }

  lemma LinesCons(line: string, rest: string)
    requires '\n' !in line
    ensures Lines(line + "\n" + rest) == [line] + Lines(rest)
  {
    var text := line + "\n" + rest;
    assert text[0..|line|] == line && text[|line|] == '\n';
    FindFrom(text, '\n', 0, |line|);
    assert text[..|line|] == line && text[|line| + 1..] == rest;
  }

  function EncodedLines<F>(nf: NumberFormat<F>, values: seq<F>, names: seq<string>): seq<string>
    requires |values| == |names|
  {
    seq(|values|, i requires 0 <= i < |values| => nf.show(values[i]) + " " + names[i])
  }

  lemma {:induction false} LinesOfEncoded<F(!new)>(nf: NumberFormat<F>, values: seq<F>, names: seq<string>)
    requires Agrees(nf) && |values| == |names| && forall i :: 0 <= i < |names| ==> '\n' !in names[i]
    ensures Lines(Encode(nf, values, names)) == EncodedLines(nf, values, names)
  {
    hide Lines;
    if values == [] {
      NoLines();
    } else {
      var line := nf.show(values[0]) + " " + names[0];
      var rest := Encode(nf, values[1..], names[1..]);
      assert '\n' !in nf.show(values[0]) by {
        assert nf.scan(nf.show(values[0]) + " " + "") == Some((values[0], " " + ""));
      }
      LinesOfEncoded(nf, values[1..], names[1..]);
      assert Encode(nf, values, names) == line + "\n" + rest;
      LinesCons(line, rest);
    }
  }

  lemma NoLines()
    ensures Lines("") == []
  {
  }

  lemma {:induction false} DecodeOfLines<F(!new)>(nf: NumberFormat<F>, values: seq<F>, names: seq<string>)
    requires Agrees(nf) && |values| == |names| && forall i :: 0 <= i < |names| ==> OneWord(names[i])
    ensures DecodeLines(nf, EncodedLines(nf, values, names)) == Features(values, names)
  {
    hide DecodeLine, OneWord;
    if values != [] {
      var n := |values| - 1;
      DecodeOfLines(nf, values[..n], names[..n]);
      assert EncodedLines(nf, values, names)[..n] == EncodedLines(nf, values[..n], names[..n]);
      DecodeOfLine(nf, values[n], names[n]);
    }
  }

  lemma DecodeOfLine<F(!new)>(nf: NumberFormat<F>, x: F, name: string)
    requires Agrees(nf) && OneWord(name)
    ensures DecodeLine(nf, nf.show(x) + " " + name) == (x, name)
  {
    hide OneWord, FirstWord;
    assert nf.scan(nf.show(x) + " " + name) == Some((x, " " + name));
    FirstWordAfterBlank(name);
  }

  lemma {:induction false} DecodedNames<F>(nf: NumberFormat<F>, lines: seq<string>)
    ensures var d := DecodeLines(nf, lines);
            |d.values| == |d.names| == |lines| && forall i :: 0 <= i < |d.names| ==> OneWord(d.names[i])
  {
    if lines != [] {
      DecodedNames(nf, lines[..|lines| - 1]);
      var scanned := nf.scan(lines[|lines| - 1]);
      if scanned.Some? {
        WordOfWord(DropLeft(scanned.value.1));
      }
    }
  }

  /** Decoding the sent text gives the values and names back exactly when no name holds a blank. */
  lemma DecodeUndoesEncode<F(!new)>(nf: NumberFormat<F>, values: seq<F>, names: seq<string>)
    requires Agrees(nf) && |values| == |names|
    ensures Decode(nf, Encode(nf, values, names)) == Features(values, names) <==>
              forall i :: 0 <= i < |names| ==> OneWord(names[i])
  {
    if forall i :: 0 <= i < |names| ==> OneWord(names[i]) {
      assert forall i :: 0 <= i < |names| ==> '\n' !in names[i];
      LinesOfEncoded(nf, values, names);
      DecodeOfLines(nf, values, names);
    } else {
      DecodedNames(nf, Lines(Encode(nf, values, names)));
    }
  }
}
