/** Splitting a path expression into its parts, by index arithmetic over the text. */
module PathSplitter {
  import opened Loops
  import opened PathSyntax

  datatype SplitError =
    | NoLeadingSlash | BracketPlace | NoAtSign | NotQuoted | NoSlashAfterBracket | NoFinalPart

  /** `Hangs` is the outcome of a call whose loop never ends. */
  datatype SplitResult = Ok(parts: Parts) | Err(error: SplitError) | Hangs

  /** One turn of the splitting loop: a step and the next position, the loop's exit, or a throw. */
  datatype Turn = Took(part: Part, next: nat) | Left | Threw(error: SplitError)

  function TurnAt(expr: string, pos: nat): Turn
    requires pos <= |expr|
  {
    var slash := Find(expr, '/', pos);
    if slash == -1 then Left else
    var colon := Find(expr, ':', pos);
    var open := Find(expr, '[', pos);
    var prefixed := colon != -1 && colon < slash;
    var prefix := if prefixed then expr[pos..colon] else "";
    var start := if prefixed then colon + 1 else pos;
    if open == -1 || slash < open then
      Took(Part(prefix, expr[start..slash], "", ""), slash + 1)
    else if open <= start then
      Threw(BracketPlace)
    else if expr[open + 1] != '@' then
      Threw(NoAtSign)
    else
      TurnInBracket(expr, prefix, expr[start..open], open)
  }

  /** The attribute test that opens at `open`.  Without a later `]`, `close + 1` is position 0. */
  function TurnInBracket(expr: string, prefix: string, local: string, open: nat): (turn: Turn)
    requires open + 1 < |expr| && expr[open] == '[' && expr[open + 1] == '@'
    ensures turn.Took? ==> turn.part.prefix == prefix && turn.part.local == local
  {
    var equal := Find(expr, '=', open);
    var close := Find(expr, ']', open);
    var valued := equal != -1 && equal + 2 < close;
    if valued && (expr[equal + 1] != '\'' || expr[close - 1] != '\'') then
      Threw(NotQuoted)
    else
      var att := if valued then expr[open + 2..equal]
                 else if close == -1 then expr[open + 2..] else expr[open + 2..close];
      var val := if valued then expr[equal + 2..close - 1] else "";
      if close + 1 >= |expr| || expr[close + 1] != '/' then
        Threw(NoSlashAfterBracket)
      else
        Took(Part(prefix, local, att, val), close + 2)
  }

  function LastPart(expr: string, pos: nat): SplitResult
    requires pos <= |expr|
  {
    if pos == |expr| then Err(NoFinalPart)
    else if expr[pos] == '@' then Ok(Parts([], AttributeNamed(expr[pos + 1..])))
    else if expr[pos..] == "text()" then Ok(Parts([], TextContent))
    else Err(NoFinalPart)
  }

  function Prepend(steps: seq<Part>, r: SplitResult): SplitResult {
    if r.Ok? then Ok(Parts(steps + r.parts.steps, r.parts.last)) else r
  }

  function SplitFrom(expr: string, pos: nat): SplitResult
    requires pos <= |expr|
    decreases |expr| - pos
  {
    match TurnAt(expr, pos)
    case Left => LastPart(expr, pos)
    case Threw(e) => Err(e)
    case Took(part, next) =>
      if next <= pos || next > |expr| then Hangs else Prepend([part], SplitFrom(expr, next))
  }

  lemma PrependTwice(steps: seq<Part>, part: Part, r: SplitResult)
    ensures Prepend(steps, Prepend([part], r)) == Prepend(steps + [part], r)
  {
    if r.Ok? {
      assert steps + ([part] + r.parts.steps) == (steps + [part]) + r.parts.steps;
    }
  }

  function Split(expr: string): SplitResult {
    if expr == "" || expr[0] != '/' then Err(NoLeadingSlash) else SplitFrom(expr, 1)
  }

  lemma BracketMoves(expr: string, prefix: string, local: string, open: nat)
    requires open + 1 < |expr| && expr[open] == '[' && expr[open + 1] == '@' && expr[0] == '/'
    requires TurnInBracket(expr, prefix, local, open).Took?
    ensures var next := TurnInBracket(expr, prefix, local, open).next;
            if Find(expr, ']', open) == -1 then next == 1
            else open + 2 < next <= |expr| && expr[next - 1] == '/'
  {
    hide Find;
  }

  /** Where the local name of the part at `pos` starts: after the prefix's colon, if any. */
  function NameStart(expr: string, pos: nat): nat
    requires pos <= |expr|
  {
    var slash, colon := Find(expr, '/', pos), Find(expr, ':', pos);
    if colon != -1 && colon < slash then colon + 1 else pos
  }

  /** The prefix of the part at `pos`, without its colon. */
  function PrefixAt(expr: string, pos: nat): string
    requires pos <= |expr|
  {
    var start := NameStart(expr, pos);
    if start > pos then expr[pos..start - 1] else ""
  }

  lemma PlainTurn(expr: string, pos: nat)
    requires pos <= |expr| && Find(expr, '/', pos) >= 0
    requires var open := Find(expr, '[', pos); open == -1 || Find(expr, '/', pos) < open
    ensures var start, slash := NameStart(expr, pos), Find(expr, '/', pos);
            && start <= slash
            && TurnAt(expr, pos) == Took(Part(PrefixAt(expr, pos), expr[start..slash], "", ""), slash + 1)
  {
    hide Find, TurnInBracket;
  }

  lemma TestTurn(expr: string, pos: nat)
    requires pos <= |expr| && 0 <= Find(expr, '[', pos) < Find(expr, '/', pos) && TurnAt(expr, pos).Took?
    ensures var start, open := NameStart(expr, pos), Find(expr, '[', pos);
            && start < open && open + 1 < |expr| && expr[open + 1] == '@'
            && TurnAt(expr, pos) == TurnInBracket(expr, PrefixAt(expr, pos), expr[start..open], open)
  {
    hide Find, TurnInBracket;
  }

  /** A turn moves forward within the text, or restarts at position 1 on a bracket left open. */
  lemma TurnMoves(expr: string, pos: nat)
    requires 1 <= pos <= |expr| && expr[0] == '/' && TurnAt(expr, pos).Took?
    ensures var next := TurnAt(expr, pos).next;
            next == 1 || (pos < next <= |expr| && expr[next - 1] == '/')
    ensures TurnAt(expr, pos).next == 1 <==>
              var open := Find(expr, '[', pos);
              0 <= open < Find(expr, '/', pos) && Find(expr, ']', open) == -1
  {
    hide Find, TurnInBracket, TurnAt, NameStart, PrefixAt;
    var slash, open := Find(expr, '/', pos), Find(expr, '[', pos);
    SlashAhead(expr, pos);
    if 0 <= open < slash {
      TestTurn(expr, pos);
      BracketMoves(expr, PrefixAt(expr, pos), expr[NameStart(expr, pos)..open], open);
    } else {
      PlainTurn(expr, pos);
    }
  }

  lemma SlashAhead(expr: string, pos: nat)
    requires pos <= |expr| && TurnAt(expr, pos).Took?
    ensures Find(expr, '/', pos) >= 0 && Find(expr, '/', pos) != Find(expr, '[', pos)
    ensures pos <= NameStart(expr, pos) <= |expr|
  {
    hide Find, TurnInBracket;
  }

  /** Each error of a turn, and when it is thrown. */
  lemma TurnErrors(expr: string, pos: nat)
    requires pos <= |expr|
    ensures var slash, open, start := Find(expr, '/', pos), Find(expr, '[', pos), NameStart(expr, pos);
            var tested := 0 <= open < slash;
            && (TurnAt(expr, pos) == Left <==> slash < 0)
            && (TurnAt(expr, pos) == Threw(BracketPlace) <==> tested && open <= start)
            && (TurnAt(expr, pos) == Threw(NoAtSign) <==> tested && start < open && expr[open + 1] != '@')
            && (TurnAt(expr, pos) == Threw(NotQuoted) <==>
                  tested && start < open && expr[open + 1] == '@' && Unquoted(expr, open))
            && (TurnAt(expr, pos) == Threw(NoSlashAfterBracket) <==>
                  && tested && start < open && expr[open + 1] == '@' && !Unquoted(expr, open)
                  && var end := Find(expr, ']', open) + 1; end >= |expr| || expr[end] != '/')
            && TurnAt(expr, pos) != Threw(NoLeadingSlash) && TurnAt(expr, pos) != Threw(NoFinalPart)
  {
    hide Find;
  }

  /** Something follows the test's `=`, but not between single quotes up to the bracket. */
  predicate Unquoted(expr: string, open: nat)
    requires open < |expr|
  {
    var equal, close := Find(expr, '=', open), Find(expr, ']', open);
    equal >= 0 && equal + 2 < close && !(expr[equal + 1] == '\'' && expr[close - 1] == '\'')
  }

  /** The two errors outside the loop. */
  lemma EndErrors(expr: string)
    ensures Split(expr) == Err(NoLeadingSlash) <==> expr == "" || expr[0] != '/'
    ensures forall pos :: 0 <= pos <= |expr| ==>
              (LastPart(expr, pos) == Err(NoFinalPart) <==>
                 !(pos < |expr| && expr[pos] == '@') && expr[pos..] != "text()")
  {
    hide Find;
    if expr != "" && expr[0] == '/' {
      NeverNoLeadingSlash(expr, 1);
    }
  }

  lemma {:induction false} NeverNoLeadingSlash(expr: string, pos: nat)
    requires pos <= |expr|
    ensures SplitFrom(expr, pos) != Err(NoLeadingSlash)
    decreases |expr| - pos
  {
    hide Find, TurnAt;
    TurnErrors(expr, pos);
    if TurnAt(expr, pos).Took? && pos < TurnAt(expr, pos).next <= |expr| {
      NeverNoLeadingSlash(expr, TurnAt(expr, pos).next);
    }
  }

  /** The attribute test of a part, from its opening bracket to the slash that must follow it. */
  method SplitAttribute(expr: string, prefix: string, local: string, open: nat)
      returns (turn: Turn)
    requires open + 1 < |expr| && expr[open] == '[' && expr[open + 1] == '@'
    ensures turn == TurnInBracket(expr, prefix, local, open)
  {
    var attName, attValue := "", "";
    var equalPos := Find(expr, '=', open);
    var nextCloseSqB := Find(expr, ']', open);
    if equalPos != -1 && equalPos + 2 < nextCloseSqB {
      attName := expr[open + 2..equalPos];
      if expr[equalPos + 1] != '\'' || expr[nextCloseSqB - 1] != '\'' {
        return Threw(NotQuoted);
      }
      attValue := expr[equalPos + 2..nextCloseSqB - 1];
    } else {
      attName := if nextCloseSqB == -1 then expr[open + 2..] else expr[open + 2..nextCloseSqB];
    }
    var nextSlashPos := nextCloseSqB + 1;
    if nextSlashPos >= |expr| || expr[nextSlashPos] != '/' {
      return Threw(NoSlashAfterBracket);
    }
    return Took(Part(prefix, local, attName, attValue), nextSlashPos + 1);
  }

  /** The body of the splitting loop, from the position `start` of one part. */
  method SplitOnePart(expr: string, start: nat) returns (turn: Turn)
    requires start <= |expr|
    ensures turn == TurnAt(expr, start)
  {
    var pos, prefix := start, "";
    var nextColonPos := Find(expr, ':', pos);
    var nextSlashPos := Find(expr, '/', pos);
    var nextOpenSqB := Find(expr, '[', pos);
    if nextSlashPos == -1 {
      return Left;
    }
    if nextColonPos != -1 && nextColonPos < nextSlashPos {
      prefix := expr[pos..nextColonPos];
      pos := nextColonPos + 1;
    }
    if nextOpenSqB == -1 || nextSlashPos < nextOpenSqB {
      return Took(Part(prefix, expr[pos..nextSlashPos], "", ""), nextSlashPos + 1);
    }
    if nextOpenSqB <= pos {
      return Threw(BracketPlace);
    }
    if expr[nextOpenSqB + 1] != '@' {
      return Threw(NoAtSign);
    }
    turn := SplitAttribute(expr, prefix, expr[pos..nextOpenSqB], nextOpenSqB);
  }

  /** The splitter as it runs: a position moves in a loop and parts are appended one by one. */
  method SplitXPathIntoParts(expr: string) returns (r: SplitResult)
    ensures r == Split(expr)
  {
    if expr == "" || expr[0] != '/' {
      return Err(NoLeadingSlash);
    }
    var steps: seq<Part> := [];
    var pos := 1;
    while true
      invariant 1 <= pos <= |expr|
      invariant Prepend(steps, SplitFrom(expr, pos)) == Split(expr)
      decreases |expr| - pos
    {
      var turn := SplitOnePart(expr, pos);
      match turn {
        case Left => break;
        case Threw(e) => return Err(e);
        case Took(part, next) =>
          if next <= pos || next > |expr| {
            return Hangs; // back at position 1, to come here again for ever
          }
          PrependTwice(steps, part, SplitFrom(expr, next));
          steps, pos := steps + [part], next;
      }
    }
    var last := LastPart(expr, pos);
    return if last.Ok? then Ok(Parts(steps, last.parts.last)) else last;
  }

  // ---------- Termination ----------

  /** The loop's next position, or 0 when this turn leaves the loop or throws. */
  ghost function Advance(expr: string, pos: nat): nat {
    if pos <= |expr| && TurnAt(expr, pos).Took? then TurnAt(expr, pos).next else 0
  }

  /** Where the loop stands after `n` turns from `pos`: 0 if it has ended. */
  ghost function PosAfter(expr: string, pos: nat, n: nat): nat {
    After(p => Advance(expr, p), pos, n)
  }

  ghost predicate RunsForEver(expr: string) {
    expr != "" && expr[0] == '/' && forall n :: PosAfter(expr, 1, n) > 0
  }

  /** `SplitFrom` tells whether the loop, from `pos`, comes back to 1 or stops. */
  lemma {:induction false} Outcome(expr: string, pos: nat) returns (n: nat)
    requires 1 <= pos <= |expr| && expr[0] == '/'
    ensures SplitFrom(expr, pos).Hangs? ==> n > 0 && PosAfter(expr, pos, n) == 1
    ensures !SplitFrom(expr, pos).Hangs? ==> n <= |expr| - pos + 1 && PosAfter(expr, pos, n) == 0
    decreases |expr| - pos
  {
    hide Find, TurnAt;
    n := 1;
    TurnOutcome(expr, pos);
    OneTurn(expr, pos, 0);
    var next := Advance(expr, pos);
    if next > 1 {
      var m := Outcome(expr, next);
      OneTurn(expr, pos, m);
      n := m + 1;
    }
  }

  lemma OneTurn(expr: string, pos: nat, n: nat)
    requires pos > 0
    ensures PosAfter(expr, pos, n + 1) == PosAfter(expr, Advance(expr, pos), n)
  {
  }

  /** What one turn tells about the outcome: the end, a restart, or the outcome further on. */
  lemma TurnOutcome(expr: string, pos: nat)
    requires 1 <= pos <= |expr| && expr[0] == '/'
    ensures Advance(expr, pos) == 0 ==> !SplitFrom(expr, pos).Hangs?
    ensures Advance(expr, pos) == 1 ==> SplitFrom(expr, pos).Hangs?
    ensures Advance(expr, pos) > 1 ==> pos < Advance(expr, pos) <= |expr|
    ensures Advance(expr, pos) > 1 ==>
              (SplitFrom(expr, pos).Hangs? <==> SplitFrom(expr, Advance(expr, pos)).Hangs?)
  {
    hide Find;
    if TurnAt(expr, pos).Took? {
      TurnMoves(expr, pos);
    }
  }

  /** The loop runs for ever exactly when the splitter's outcome is `Hangs`. */
  lemma HangsIsDivergence(expr: string)
    ensures Split(expr).Hangs? <==> RunsForEver(expr)
  {
    if expr != "" && expr[0] == '/' {
      var n := Outcome(expr, 1);
      if Split(expr).Hangs? {
        forall m: nat ensures PosAfter(expr, 1, m) > 0 {
          ReturnsRepeat(p => Advance(expr, p), 1, n, m);
        }
      }
    }
  }

  ghost predicate BracketsClosed(expr: string) {
    forall i :: 0 <= i < |expr| && expr[i] == '[' ==> exists j :: i < j < |expr| && expr[j] == ']'
  }

  lemma {:induction false} ClosedFrom(expr: string, pos: nat)
    requires 1 <= pos <= |expr| && expr[0] == '/' && BracketsClosed(expr)
    ensures !SplitFrom(expr, pos).Hangs?
    ensures TurnAt(expr, pos).Took? ==> pos < TurnAt(expr, pos).next <= |expr|
    decreases |expr| - pos
  {
    if TurnAt(expr, pos).Took? {
      TurnMoves(expr, pos);
      if Find(expr, '[', pos) >= 0 {
        FindSkips(expr, ']', Find(expr, '[', pos));
      }
      if TurnAt(expr, pos).next != 1 {
        ClosedFrom(expr, TurnAt(expr, pos).next);
      }
    }
  }

  /** When every `[` has a later `]`, every turn moves forward within the text and the call ends. */
  lemma ClosedBracketsTerminate(expr: string)
    requires BracketsClosed(expr)
    ensures !RunsForEver(expr)
    ensures expr != "" && expr[0] == '/' ==>
              forall pos :: 1 <= pos <= |expr| && TurnAt(expr, pos).Took? ==>
                pos < TurnAt(expr, pos).next <= |expr|
  {
    HangsIsDivergence(expr);
    if expr != "" && expr[0] == '/' {
      forall pos: nat | 1 <= pos <= |expr| ensures
          !SplitFrom(expr, pos).Hangs? &&
          (TurnAt(expr, pos).Took? ==> pos < TurnAt(expr, pos).next <= |expr|)
      {
        ClosedFrom(expr, pos);
      }
    }
  }

  /** The condition is needed: on this text every turn starts over at position 1. */
  lemma OpenBracketHangs()
    ensures RunsForEver("/a[@/@b")
  {
    var expr := "/a[@/@b";
    assert expr[1..4] == "a[@" && expr[1..2] == "a" && expr[2..7] == "[@/@b";
    FindFrom(expr, '/', 1, 4);
    FindFrom(expr, '[', 1, 2);
    FindFrom(expr, ']', 2, 7);
    assert TurnAt(expr, 1).Took?;
    TurnMoves(expr, 1);
    HangsIsDivergence(expr);
  }
}
