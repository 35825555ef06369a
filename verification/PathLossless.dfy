/**
 What splitting keeps of the text.  The parts determine the expression up to three spellings that
 print shorter: a colon after an empty prefix, `=''` for a test without value, and `[@]` for no
 test at all.  The expression is its parts' canonical text exactly when no step is spelt so.
 */
module PathLossless {
  import opened PathSyntax
  import opened PathSplitter

  /** The ways to write a step's prefix. */
  function Prefixes(p: Part): set<string> {
    if p.prefix == "" then {"", ":"} else {p.prefix + ":"}
  }

  /** The ways to write a step's attribute test. */
  function Tests(p: Part): set<string> {
    if p.val == "" then {PrintTest(p), "[@" + p.att + "]", "[@" + p.att + "='']"} else {PrintTest(p)}
  }

  ghost predicate Spells(raw: string, p: Part) {
    exists c, t :: c in Prefixes(p) && t in Tests(p) && raw == c + p.local + t
  }

  /** A step text with an empty prefix's colon, or an empty or valueless quoted test. */
  predicate Odd(raw: string) {
    (raw != "" && raw[0] == ':') || OddTest(raw)
  }

  /** A test that is `[@]`, or that ends right after `=''`. */
  predicate OddTest(raw: string) {
    var open := Find(raw, '[', 0);
    open >= 0 &&
    (|raw| == open + 3 || (var equal := Find(raw, '=', open); equal >= 0 && |raw| == equal + 4))
  }

  lemma SpellsLonger(raw: string, p: Part)
    requires Spells(raw, p)
    ensures |PrintStep(p)| <= |raw|
    ensures |PrintStep(p)| == |raw| ==> raw == PrintStep(p)
  {
    var c, t :| c in Prefixes(p) && t in Tests(p) && raw == c + p.local + t;
  }

  /** Searching a slice is searching the text up to the slice's end. */
  lemma FindInSlice(s: string, c: char, from: nat, off: nat, end: nat)
    requires from <= off <= end <= |s|
    ensures Find(s[from..end], c, off - from)
         == var r := Find(s, c, off); if 0 <= r < end then r - from else -1
  {
    hide Find;
    var slice := s[from..end];
    FindSkips(s, c, off);
    FindSkips(slice, c, off - from);
    var r, q := Find(s, c, off), Find(slice, c, off - from);
    if q >= 0 {
      assert s[from + q] == c;
      assert forall i :: off <= i < from + q ==> s[i] == slice[i - from];
      FindFrom(s, c, off, from + q);
    } else {
      assert forall i :: off <= i < end ==> s[i] == slice[i - from];
    }
  }

  lemma Cut(s: string, i: nat, j: nat, k: nat)
    requires i <= j <= k <= |s|
    ensures s[i..k] == s[i..j] + s[j..k]
  {
  }

  lemma ValuedTest(expr: string, open: nat, equal: nat, close: nat)
    requires open + 2 <= equal && equal + 2 < close < |expr|
    requires expr[open] == '[' && expr[open + 1] == '@' && expr[equal] == '='
    requires expr[equal + 1] == '\'' && expr[close - 1] == '\'' && expr[close] == ']'
    ensures expr[open..close + 1]
         == "[@" + expr[open + 2..equal] + "='" + expr[equal + 2..close - 1] + "']"
  {
    assert expr[open..open + 2] == "[@";
    assert expr[equal..equal + 2] == "='";
    assert expr[close - 1..close + 1] == "']";
    Cut(expr, open, open + 2, equal);
    Cut(expr, open, equal, equal + 2);
    Cut(expr, open, equal + 2, close - 1);
    Cut(expr, open, close - 1, close + 1);
  }

  lemma ValuelessTest(expr: string, open: nat, close: nat)
    requires open + 2 <= close < |expr|
    requires expr[open] == '[' && expr[open + 1] == '@' && expr[close] == ']'
    ensures expr[open..close + 1] == "[@" + expr[open + 2..close] + "]"
  {
  }

  lemma ValuedForm(p: Part, text: string)
    requires text == "[@" + p.att + "='" + p.val + "']"
    ensures text in Tests(p)
    ensures text == PrintTest(p) <==> p.val != ""
  {
    if p.val == "" {
      assert text == "[@" + p.att + "='']";
      assert |PrintTest(p)| < |text|;
    }
  }

  lemma ValuelessForm(p: Part, text: string)
    requires p.val == "" && text == "[@" + p.att + "]"
    ensures text in Tests(p)
    ensures text == PrintTest(p) <==> p.att != ""
  {
  }

  /** The text of a test, from its opening bracket to its closing one, spells what was read. */
  lemma TestSpelling(expr: string, open: nat, prefix: string, local: string)
    requires open < |expr| - 1 && expr[open] == '[' && expr[open + 1] == '@'
    requires TurnInBracket(expr, prefix, local, open).Took?
    requires TurnInBracket(expr, prefix, local, open).next > open
    ensures var turn := TurnInBracket(expr, prefix, local, open);
            && open + 3 <= turn.next - 1 <= |expr|
            && expr[open..turn.next - 1] in Tests(turn.part)
            && (expr[open..turn.next - 1] == PrintTest(turn.part) <==>
                turn.next > open + 4 && turn.next != Find(expr, '=', open) + 5)
  {
    hide Find;
    var p := TurnInBracket(expr, prefix, local, open).part;
    var equal, close := Find(expr, '=', open), Find(expr, ']', open);
    if equal != -1 && equal + 2 < close {
      ValuedTest(expr, open, equal, close);
      ValuedForm(p, expr[open..close + 1]);
    } else {
      ValuelessTest(expr, open, close);
      ValuelessForm(p, expr[open..close + 1]);
    }
  }

  /** `OddTest` of a step's own text, told from the positions in the whole expression. */
  lemma OddTestAt(expr: string, pos: nat, end: nat)
    requires pos <= end <= |expr|
    ensures OddTest(expr[pos..end]) <==>
              var open := Find(expr, '[', pos);
              0 <= open < end &&
              (end == open + 3 ||
               (var equal := Find(expr, '=', open); equal >= 0 && end == equal + 4))
  {
    hide Find;
    var open := Find(expr, '[', pos);
    FindInSlice(expr, '[', pos, pos, end);
    if 0 <= open < end {
      FindInSlice(expr, '=', pos, open, end);
    }
  }

  lemma PrefixSpelling(expr: string, pos: nat, p: Part)
    requires pos <= |expr| && TurnAt(expr, pos).Took? && p == TurnAt(expr, pos).part
    ensures var start := NameStart(expr, pos);
            && pos <= start <= |expr|
            && expr[pos..start] in Prefixes(p)
            && (expr[pos..start] == PrintPrefix(p) <==> pos == start || expr[pos] != ':')
  {
    hide Find, TurnInBracket;
    var slash, colon := Find(expr, '/', pos), Find(expr, ':', pos);
    if colon != -1 && colon < slash {
      assert expr[pos..colon + 1] == p.prefix + ":";
      assert p.prefix == "" ==> p.prefix + ":" == ":";
      FindSkips(expr, ':', pos);
    } else {
      assert expr[pos..pos] == "";
    }
  }

  /** Where the local name of the part at `pos` ends: at its bracket, or else at its slash. */
  function NameEnd(expr: string, pos: nat): int
    requires pos <= |expr|
  {
    var slash, open := Find(expr, '/', pos), Find(expr, '[', pos);
    if open == -1 || slash < open then slash else open
  }

  lemma RestSpelling(expr: string, pos: nat, p: Part)
    requires 1 <= pos <= |expr| && TurnAt(expr, pos).Took? && p == TurnAt(expr, pos).part
    requires pos < TurnAt(expr, pos).next <= |expr|
    ensures var stop, end := NameEnd(expr, pos), TurnAt(expr, pos).next - 1;
            && NameStart(expr, pos) <= stop <= end
            && p.local == expr[NameStart(expr, pos)..stop]
            && expr[stop..end] in Tests(p)
            && (expr[stop..end] == PrintTest(p) <==> !OddTest(expr[pos..end]))
  {
    hide Find, OddTest;
    var end := TurnAt(expr, pos).next - 1;
    var slash, open := Find(expr, '/', pos), Find(expr, '[', pos);
    OddTestAt(expr, pos, end);
    if open != -1 && open < slash {
      TestSpelling(expr, open, p.prefix, p.local);
    } else {
      assert expr[slash..slash] == "";
    }
  }

  lemma NoColonAtName(expr: string, pos: nat)
    requires pos <= |expr| && TurnAt(expr, pos).Took?
    requires pos < TurnAt(expr, pos).next <= |expr|
    ensures NameStart(expr, pos) == pos && pos < TurnAt(expr, pos).next - 1 ==> expr[pos] != ':'
  {
    hide Find;
    FindSkips(expr, ':', pos);
  }

  /** The text of one step spells the part read from it, canonically unless it is odd. */
  lemma TurnSpelling(expr: string, pos: nat)
    requires 1 <= pos <= |expr| && TurnAt(expr, pos).Took?
    requires pos < TurnAt(expr, pos).next <= |expr|
    ensures var turn := TurnAt(expr, pos);
            var raw := expr[pos..turn.next - 1];
            Spells(raw, turn.part) && (raw == PrintStep(turn.part) <==> !Odd(raw))
  {
    hide Find, TurnAt, Odd, NameStart, NameEnd;
    var p, end := TurnAt(expr, pos).part, TurnAt(expr, pos).next - 1;
    NoColonAtName(expr, pos);
    PrefixSpelling(expr, pos, p);
    RestSpelling(expr, pos, p);
    Glue(expr, pos, NameStart(expr, pos), NameEnd(expr, pos), end, p);
  }

  lemma Glue(expr: string, pos: nat, start: nat, stop: nat, end: nat, p: Part)
    requires pos <= start <= stop <= end <= |expr| && p.local == expr[start..stop]
    requires expr[pos..start] in Prefixes(p) && expr[stop..end] in Tests(p)
    requires expr[pos..start] == PrintPrefix(p) <==> pos == start || expr[pos] != ':'
    requires expr[stop..end] == PrintTest(p) <==> !OddTest(expr[pos..end])
    requires pos == start && pos < end ==> expr[pos] != ':'
    ensures Spells(expr[pos..end], p)
    ensures expr[pos..end] == PrintStep(p) <==> !Odd(expr[pos..end])
  {
    hide Find, OddTest;
    var c, t := expr[pos..start], expr[stop..end];
    Cut(expr, pos, start, stop);
    Cut(expr, pos, stop, end);
    SameTriple(c, p.local, t, PrintPrefix(p), PrintTest(p));
  }

  /** A text around a fixed middle is matched only piece by piece, if no piece can be shorter. */
  lemma SameTriple(c: string, m: string, t: string, c': string, t': string)
    requires |c'| <= |c| && |t'| <= |t|
    ensures c + m + t == c' + m + t' <==> c == c' && t == t'
  {
    if c + m + t == c' + m + t' {
      assert |c| == |c'| && |t| == |t'|;
      assert c == (c + m + t)[..|c|];
      assert c' == (c' + m + t')[..|c|];
      assert t == (c + m + t)[|c| + |m|..];
      assert t' == (c' + m + t')[|c| + |m|..];
    }
  }

  // ---------- Whole expressions ----------

  /** The texts of the steps, as the splitter cuts them. */
  function RawSteps(expr: string, pos: nat): seq<string>
    requires pos <= |expr|
    decreases |expr| - pos
  {
    var turn := TurnAt(expr, pos);
    if turn.Took? && pos < turn.next <= |expr| then
      [expr[pos..turn.next - 1]] + RawSteps(expr, turn.next)
    else []
  }

  ghost predicate SpellsAll(raws: seq<string>, steps: seq<Part>) {
    |raws| == |steps| &&
    forall i :: 0 <= i < |raws| ==>
      Spells(raws[i], steps[i]) && (raws[i] == PrintStep(steps[i]) <==> !Odd(raws[i]))
  }

  lemma {:induction false} LosslessFrom(expr: string, pos: nat)
    requires 1 <= pos <= |expr| && expr[0] == '/' && expr[pos - 1] == '/'
    requires SplitFrom(expr, pos).Ok?
    ensures var parts := SplitFrom(expr, pos).parts;
            && SpellsAll(RawSteps(expr, pos), parts.steps)
            && expr[pos - 1..] == Join(RawSteps(expr, pos), PrintLast(parts.last))
    decreases |expr| - pos
  {
    hide Find, TurnAt, Spells, Odd, PrintStep;
    match TurnAt(expr, pos)
    case Left =>
      LosslessLast(expr, pos);
    case Took(part, next) =>
      TurnMoves(expr, pos);
      TurnSpelling(expr, pos);
      LosslessFrom(expr, next);
      LosslessStep(expr, pos, next);
      var rest := SplitFrom(expr, next).parts;
      SpellsCons(expr[pos..next - 1], part, RawSteps(expr, next), rest.steps);
      JoinCons(expr[pos..next - 1], RawSteps(expr, next), PrintLast(rest.last));
  }

  lemma LosslessLast(expr: string, pos: nat)
    requires 1 <= pos <= |expr| && expr[pos - 1] == '/' && LastPart(expr, pos).Ok?
    ensures expr[pos - 1..] == Join([], PrintLast(LastPart(expr, pos).parts.last))
    ensures LastPart(expr, pos).parts.steps == []
  {
    hide Find;
    assert expr[pos - 1..] == "/" + expr[pos..];
    assert expr[pos] == '@' ==> expr[pos..] == "@" + expr[pos + 1..];
  }

  lemma SpellsCons(raw: string, p: Part, raws: seq<string>, steps: seq<Part>)
    requires Spells(raw, p) && (raw == PrintStep(p) <==> !Odd(raw)) && SpellsAll(raws, steps)
    ensures SpellsAll([raw] + raws, [p] + steps)
  {
  }

  lemma JoinCons(raw: string, raws: seq<string>, last: string)
    ensures Join([raw] + raws, last) == "/" + raw + Join(raws, last)
  {
    assert ([raw] + raws)[1..] == raws;
  }

  lemma LosslessStep(expr: string, pos: nat, next: nat)
    requires 1 <= pos < next <= |expr| && expr[pos - 1] == '/'
    ensures expr[pos - 1..] == "/" + expr[pos..next - 1] + expr[next - 1..]
  {
    assert expr[pos - 1..] == expr[pos - 1..next - 1] + expr[next - 1..];
    assert expr[pos - 1..next - 1] == "/" + expr[pos..next - 1];
  }

  lemma {:induction false} PrintsNoLonger(raws: seq<string>, steps: seq<Part>, last: Last)
    requires SpellsAll(raws, steps)
    ensures |PrintFrom(steps, last)| <= |Join(raws, PrintLast(last))|
    ensures PrintFrom(steps, last) == Join(raws, PrintLast(last)) <==>
              forall i :: 0 <= i < |raws| ==> raws[i] == PrintStep(steps[i])
  {
    if raws != [] {
      SpellsLonger(raws[0], steps[0]);
      PrintsNoLonger(raws[1..], steps[1..], last);
      var printed, text := PrintFrom(steps[1..], last), Join(raws[1..], PrintLast(last));
      if PrintFrom(steps, last) == Join(raws, PrintLast(last)) {
        SameHead(raws[0], text, PrintStep(steps[0]), printed);
      }
      assert forall i :: 1 <= i < |raws| ==> raws[i] == raws[1..][i - 1] && steps[i] == steps[1..][i - 1];
    }
  }

  lemma SameHead(a: string, t: string, b: string, u: string)
    requires |b| <= |a| && |u| <= |t| && "/" + b + u == "/" + a + t
    ensures a == b && t == u
  {
    SameTriple(a, "", t, b, u);
    var s := "/" + a + t;
    assert s[1..] == a + "" + t;
    assert ("/" + b + u)[1..] == b + "" + u;
  }

  /**
   Lossless splitting: the steps' texts, joined by slashes, are the expression, and each spells
   its part.  The canonical text of the parts is the expression exactly when no step is odd.
   */
  lemma Lossless(expr: string)
    requires Split(expr).Ok?
    ensures var parts, raws := Split(expr).parts, RawSteps(expr, 1);
            && SpellsAll(raws, parts.steps)
            && expr == Join(raws, PrintLast(parts.last))
            && (Print(parts) == expr <==> forall i :: 0 <= i < |raws| ==> !Odd(raws[i]))
  {
    hide Find, SplitFrom, Spells, Odd;
    var parts, raws := Split(expr).parts, RawSteps(expr, 1);
    LosslessFrom(expr, 1);
    assert expr[0..] == expr;
    PrintsNoLonger(raws, parts.steps, parts.last);
  }
}
