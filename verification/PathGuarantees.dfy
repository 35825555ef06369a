/**
 What the splitter's documentation promises of accepted paths: local names are not empty, a test
 has a value only with an attribute name, and the last part names an attribute.  Each promise can
 be broken; the texts that break it are told apart step by step.
 */
module PathGuarantees {
  import opened PathSyntax
  import opened PathSplitter
  import opened PathLossless

  /** A step text without a local name: nothing at all, or nothing after its first colon. */
  predicate LacksName(raw: string) {
    raw == "" || Find(raw, ':', 0) == |raw| - 1
  }

  /** A step text with a value for no attribute: `=` right after `[@`, and something between the quotes. */
  predicate ValuesNothing(raw: string) {
    var open := Find(raw, '[', 0);
    open >= 0 && open + 6 < |raw| && raw[open + 2] == '='
  }

  predicate PromisedStep(p: Part) {
    p.local != "" && (p.att == "" ==> p.val == "")
  }

  /** What the documentation promises. */
  predicate Promised(parts: Parts) {
    (forall i :: 0 <= i < |parts.steps| ==> PromisedStep(parts.steps[i])) &&
    (parts.last.AttributeNamed? ==> parts.last.name != "")
  }

  // ---------- One step ----------

  /** The part read at `pos` breaks a promise exactly when its text does. */
  ghost predicate Tells(raw: string, p: Part) {
    && (p.local == "" <==> LacksName(raw))
    && (p.att == "" && p.val != "" <==> ValuesNothing(raw))
  }

  lemma PlainTells(expr: string, pos: nat)
    requires 1 <= pos <= |expr| && TurnAt(expr, pos).Took? && pos < TurnAt(expr, pos).next <= |expr|
    requires var open := Find(expr, '[', pos); open == -1 || Find(expr, '/', pos) < open
    ensures Tells(expr[pos..TurnAt(expr, pos).next - 1], TurnAt(expr, pos).part)
  {
    hide Find, TurnInBracket;
    var slash := Find(expr, '/', pos);
    FindInSlice(expr, ':', pos, pos, slash);
    FindInSlice(expr, '[', pos, pos, slash);
  }

  lemma TestTells(expr: string, pos: nat)
    requires 1 <= pos <= |expr| && expr[0] == '/' && TurnAt(expr, pos).Took? && pos < TurnAt(expr, pos).next <= |expr|
    requires 0 <= Find(expr, '[', pos) < Find(expr, '/', pos)
    ensures Tells(expr[pos..TurnAt(expr, pos).next - 1], TurnAt(expr, pos).part)
  {
    hide Find, TurnInBracket;
    var open, end, p := Find(expr, '[', pos), TurnAt(expr, pos).next - 1, TurnAt(expr, pos).part;
    var raw := expr[pos..end];
    TurnMoves(expr, pos);
    BracketMoves(expr, p.prefix, p.local, open);
    BracketEnds(expr, p.prefix, p.local, open);
    FindInSlice(expr, '[', pos, pos, end);
    assert raw[|raw| - 1] == expr[end - 1] == ']';
    assert open + 6 < end + 1 ==> raw[open - pos + 2] == expr[open + 2];
  }

  lemma BracketEnds(expr: string, prefix: string, local: string, open: nat)
    requires open + 1 < |expr| && expr[open] == '[' && expr[open + 1] == '@' && Find(expr, ']', open) >= 0
    requires TurnInBracket(expr, prefix, local, open).Took?
    ensures var turn := TurnInBracket(expr, prefix, local, open);
            && open + 4 <= turn.next <= |expr| && expr[turn.next - 2] == ']'
            && (turn.part.att == "" && turn.part.val != "" <==> open + 7 < turn.next && expr[open + 2] == '=')
  {
    hide Find;
    var turn := TurnInBracket(expr, prefix, local, open);
    var equal, close := Find(expr, '=', open), Find(expr, ']', open);
    FindSkips(expr, '=', open);
    if equal != -1 && equal + 2 < close {
      assert turn.part.att == "" <==> equal == open + 2;
      assert turn.part.val != "" <==> equal + 3 < close;
    }
  }

  // ---------- Whole expressions ----------

  ghost predicate TellsAll(raws: seq<string>, steps: seq<Part>) {
    |raws| == |steps| && forall i :: 0 <= i < |raws| ==> Tells(raws[i], steps[i])
  }

  lemma TellsCons(raw: string, p: Part, raws: seq<string>, steps: seq<Part>)
    requires Tells(raw, p) && TellsAll(raws, steps)
    ensures TellsAll([raw] + raws, [p] + steps)
  {
  }

  lemma {:induction false} TellsFrom(expr: string, pos: nat)
    requires 1 <= pos <= |expr| && expr[0] == '/' && expr[pos - 1] == '/' && SplitFrom(expr, pos).Ok?
    ensures TellsAll(RawSteps(expr, pos), SplitFrom(expr, pos).parts.steps)
    ensures SplitFrom(expr, pos).parts.last == AttributeNamed("") <==> pos < |expr| && expr[|expr| - 2..] == "/@"
    decreases |expr| - pos
  {
    hide Find, TurnAt, Tells;
    match TurnAt(expr, pos)
    case Left => EndTells(expr, pos);
    case Took(part, next) =>
      TurnMoves(expr, pos);
      if 0 <= Find(expr, '[', pos) < Find(expr, '/', pos) {
        TestTells(expr, pos);
      } else {
        SlashAhead(expr, pos);
        PlainTells(expr, pos);
      }
      TellsFrom(expr, next);
      TellsCons(expr[pos..next - 1], part, RawSteps(expr, next), SplitFrom(expr, next).parts.steps);
  }

  lemma EndTells(expr: string, pos: nat)
    requires 1 <= pos <= |expr| && expr[pos - 1] == '/' && TurnAt(expr, pos).Left? && LastPart(expr, pos).Ok?
    ensures LastPart(expr, pos).parts.steps == []
    ensures LastPart(expr, pos).parts.last == AttributeNamed("") <==> pos < |expr| && expr[|expr| - 2..] == "/@"
  {
    hide Find;
    FindSkips(expr, '/', pos);
    if pos + 1 == |expr| {
      assert expr[|expr| - 2..] == [expr[pos - 1], expr[pos]];
    } else {
      assert expr[|expr| - 2..][0] == expr[|expr| - 2] != '/';
    }
  }

  /**
   For every accepted text, step by step: the local name is empty exactly when the step's text is
   empty or ends at its first colon, a value has no attribute name exactly when `=` follows `[@`
   and the quotes hold something, and the last name is empty exactly when the text ends in `/@`.
   */
  lemma BrokenPromises(expr: string)
    requires Split(expr).Ok?
    ensures TellsAll(RawSteps(expr, 1), Split(expr).parts.steps)
    ensures Split(expr).parts.last == AttributeNamed("") <==> |expr| >= 2 && expr[|expr| - 2..] == "/@"
  {
    hide SplitFrom, RawSteps, Tells;
    LongEnough(expr);
    TellsFrom(expr, 1);
  }

  lemma LongEnough(expr: string)
    requires Split(expr).Ok?
    ensures |expr| >= 2
  {
  }

  /**
   The documented promises hold of an accepted text exactly when no step's text breaks one and the
   text does not end in `/@`.
   */
  lemma PromisedIff(expr: string)
    requires Split(expr).Ok?
    ensures Promised(Split(expr).parts) <==>
              && (forall i :: 0 <= i < |RawSteps(expr, 1)| ==>
                    !LacksName(RawSteps(expr, 1)[i]) && !ValuesNothing(RawSteps(expr, 1)[i]))
              && !(|expr| >= 2 && expr[|expr| - 2..] == "/@")
  {
    hide SplitFrom, RawSteps, LacksName, ValuesNothing;
    BrokenPromises(expr);
    var raws, steps := RawSteps(expr, 1), Split(expr).parts.steps;
    assert forall i :: 0 <= i < |raws| ==> (PromisedStep(steps[i]) <==> !LacksName(raws[i]) && !ValuesNothing(raws[i]));
  }

  // ---------- Texts that break the promises ----------

  lemma EmptyNameAccepted()
    ensures Split("//text()") == Ok(Parts([Part("", "", "", "")], TextContent))
  {
    hide Find;
    var expr := "//text()";
    NotFound(expr);
    assert expr[2..] == "text()" && expr[1..1] == "" && expr[2..8] == "text()" && expr[1..8] == "/text()";
    FindFrom(expr, '/', 1, 1);
    FindFrom(expr, ':', 1, 8);
    FindFrom(expr, '[', 1, 8);
    FindFrom(expr, '/', 2, 8);
    assert TurnAt(expr, 1) == Took(Part("", "", "", ""), 2);
    assert SplitFrom(expr, 2) == Ok(Parts([], TextContent));
  }

  lemma ValueOfNothingAccepted()
    ensures Split("/a[@='v']/@b") == Ok(Parts([Part("", "a", "", "v")], AttributeNamed("b")))
  {
    hide Find;
    var expr := "/a[@='v']/@b";
    assert |expr| == 12 && expr[2] == '[' && expr[3] == '@' && expr[4] == '=' && expr[8] == ']' && expr[9] == '/';
    assert expr[1..9] == "a[@='v']" && expr[1..2] == "a" && expr[2..4] == "[@" && expr[2..8] == "[@='v'";
    assert expr[1..12] == "a[@='v']/@b" && expr[10..12] == "@b" && expr[11..] == "b" && expr[6..7] == "v";
    FindFrom(expr, '/', 1, 9);
    FindFrom(expr, ':', 1, 12);
    FindFrom(expr, '[', 1, 2);
    FindFrom(expr, '=', 2, 4);
    FindFrom(expr, ']', 2, 8);
    FindFrom(expr, '/', 10, 12);
    NotFound(expr);
    assert TurnInBracket(expr, "", "a", 2) == Took(Part("", "a", "", "v"), 10);
    assert TurnAt(expr, 1) == Took(Part("", "a", "", "v"), 10);
    assert SplitFrom(expr, 10) == Ok(Parts([], AttributeNamed("b")));
  }

  lemma NotFound(expr: string)
    ensures Find(expr, ':', |expr|) == -1 && Find(expr, '/', |expr|) == -1 && Find(expr, '[', |expr|) == -1
  {
  }

  lemma EmptyAttributeAccepted()
    ensures Split("/a/@") == Ok(Parts([Part("", "a", "", "")], AttributeNamed("")))
  {
    hide Find;
    var expr := "/a/@";
    NotFound(expr);
    assert expr[1..2] == "a" && expr[1..4] == "a/@" && expr[3..4] == "@" && expr[4..] == "";
    FindFrom(expr, '/', 1, 2);
    FindFrom(expr, ':', 1, 4);
    FindFrom(expr, '[', 1, 4);
    FindFrom(expr, '/', 3, 4);
    assert TurnAt(expr, 1) == Took(Part("", "a", "", ""), 3);
    assert SplitFrom(expr, 3) == Ok(Parts([], AttributeNamed("")));
  }
}
