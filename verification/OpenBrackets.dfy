/**
 Exactly which texts make the splitter run for ever: those with a part whose test is opened and
 never closed, all parts before it being accepted.
 */
module OpenBrackets {
  import opened PathSyntax
  import opened PathSplitter
  import opened PathLossless

  /** The part at `pos` has a name, then a test opened by `[@` that no bracket closes, then a slash. */
  predicate LeftOpen(expr: string, pos: nat)
    requires pos <= |expr|
  {
    var slash, open := Find(expr, '/', pos), Find(expr, '[', pos);
    0 <= open < slash && NameStart(expr, pos) < open && expr[open + 1] == '@' && ']' !in expr[open..]
  }

  /** A part starts at `pos`, after a slash, and the text before it is accepted when completed. */
  predicate StartsPart(expr: string, pos: nat) {
    1 <= pos <= |expr| && expr[pos - 1] == '/' && Split(Completed(expr, pos)).Ok?
  }

  /** The text up to `pos`, with an attribute name as its last part. */
  function Completed(expr: string, pos: nat): string
    requires pos <= |expr|
  {
    expr[..pos] + "@y"
  }

  // ---------- Texts that agree up to a position ----------

  ghost predicate AgreeTo(s: string, t: string, cut: nat) {
    cut <= |s| && cut <= |t| && s[..cut] == t[..cut]
  }

  lemma SameSlice(s: string, t: string, i: nat, j: nat, cut: nat)
    requires AgreeTo(s, t, cut) && i <= j <= cut
    ensures s[i..j] == t[i..j]
  {
    assert s[i..j] == s[..cut][i..j];
    assert t[i..j] == t[..cut][i..j];
  }

  lemma SameFind(s: string, t: string, c: char, from: nat, cut: nat)
    requires AgreeTo(s, t, cut) && from <= cut
    ensures 0 <= Find(s, c, from) < cut || 0 <= Find(t, c, from) < cut ==> Find(s, c, from) == Find(t, c, from)
  {
    hide Find;
    SameSlice(s, t, from, cut, cut);
    FindInSlice(s, c, from, from, cut);
    FindInSlice(t, c, from, from, cut);
  }

  lemma SameChar(s: string, t: string, i: nat, cut: nat)
    requires AgreeTo(s, t, cut) && i < cut
    ensures s[i] == t[i]
  {
    assert s[i] == s[..cut][i] && t[i] == t[..cut][i];
  }

  lemma SameBracket(s: string, t: string, prefix: string, local: string, open: nat, cut: nat)
    requires AgreeTo(s, t, cut) && open + 1 < cut
    requires s[open] == '[' && s[open + 1] == '@' && t[open] == '[' && t[open + 1] == '@'
    requires var turn := TurnInBracket(s, prefix, local, open); turn.Took? && open + 2 < turn.next <= cut
    ensures TurnInBracket(t, prefix, local, open) == TurnInBracket(s, prefix, local, open)
  {
    var equal, close := Find(s, '=', open), Find(s, ']', open);
    hide Find, AgreeTo;
    SameFind(s, t, ']', open, cut);
    SameFind(s, t, '=', open, cut);
    SameChar(s, t, close + 1, cut);
    if equal != -1 && equal + 2 < close {
      SameChar(s, t, equal + 1, cut);
      SameChar(s, t, close - 1, cut);
      SameSlice(s, t, open + 2, equal, cut);
      SameSlice(s, t, equal + 2, close - 1, cut);
    } else {
      SameSlice(s, t, open + 2, close, cut);
    }
  }

  /** What the searches of a turn find before the part's slash. */
  ghost predicate SameSearches(s: string, t: string, pos: nat)
    requires pos <= |s| && pos <= |t|
  {
    var slash := Find(s, '/', pos);
    && Find(t, '/', pos) == slash
    && (0 <= Find(s, ':', pos) < slash || 0 <= Find(t, ':', pos) < slash ==> Find(t, ':', pos) == Find(s, ':', pos))
    && (0 <= Find(s, '[', pos) < slash || 0 <= Find(t, '[', pos) < slash ==> Find(t, '[', pos) == Find(s, '[', pos))
  }

  lemma SearchesAgree(s: string, t: string, pos: nat, cut: nat)
    requires AgreeTo(s, t, cut) && pos <= cut && 0 <= Find(s, '/', pos) < cut
    ensures SameSearches(s, t, pos)
  {
    hide Find;
    SameFind(s, t, '/', pos, cut);
    SameFind(s, t, ':', pos, cut);
    SameFind(s, t, '[', pos, cut);
  }

  lemma SamePlainTurn(s: string, t: string, pos: nat, cut: nat)
    requires AgreeTo(s, t, cut) && pos <= cut && 0 <= Find(s, '/', pos) < cut && SameSearches(s, t, pos)
    requires var open := Find(s, '[', pos); open == -1 || Find(s, '/', pos) < open
    ensures TurnAt(t, pos) == TurnAt(s, pos)
  {
    hide Find, TurnAt, AgreeTo, NameStart, PrefixAt;
    PlainTurn(s, pos);
    PlainTurn(t, pos);
    SameNames(s, t, pos, cut);
    SameSlice(s, t, NameStart(s, pos), Find(s, '/', pos), cut);
  }

  lemma SameTestTurn(s: string, t: string, pos: nat, cut: nat)
    requires AgreeTo(s, t, cut) && pos < cut && 0 <= Find(s, '/', pos) < cut && SameSearches(s, t, pos) && s[0] == '/'
    requires 0 <= Find(s, '[', pos) < Find(s, '/', pos)
    requires TurnAt(s, pos).Took? && Find(s, '[', pos) + 2 < TurnAt(s, pos).next <= cut
    ensures TurnAt(t, pos) == TurnAt(s, pos)
  {
    hide Find, TurnAt, TurnInBracket, NameStart, PrefixAt;
    var open, start := Find(s, '[', pos), NameStart(s, pos);
    TestTurn(s, pos);
    SameNames(s, t, pos, cut);
    SameSlice(s, t, start, open, cut);
    assert s[..cut][open + 1] == t[..cut][open + 1];
    SameBracket(s, t, PrefixAt(s, pos), s[start..open], open, cut);
    TurnOfTest(t, pos);
  }

  /** The bracket of a part is looked at when a name stands before it and an @ after it. */
  lemma TurnOfTest(expr: string, pos: nat)
    requires pos <= |expr| && 0 <= Find(expr, '[', pos) < Find(expr, '/', pos)
    requires NameStart(expr, pos) < Find(expr, '[', pos) && expr[Find(expr, '[', pos) + 1] == '@'
    ensures var start, open := NameStart(expr, pos), Find(expr, '[', pos);
            TurnAt(expr, pos) == TurnInBracket(expr, PrefixAt(expr, pos), expr[start..open], open)
  {
    hide Find, TurnInBracket;
  }

  lemma SameNames(s: string, t: string, pos: nat, cut: nat)
    requires AgreeTo(s, t, cut) && pos <= cut && SameSearches(s, t, pos) && 0 <= Find(s, '/', pos) < cut
    ensures pos <= NameStart(s, pos) <= Find(s, '/', pos) && NameStart(t, pos) == NameStart(s, pos)
    ensures PrefixAt(t, pos) == PrefixAt(s, pos)
  {
    hide Find, AgreeTo;
    var start := NameStart(s, pos);
    if start > pos {
      SameSlice(s, t, pos, start - 1, cut);
    }
  }

  /** A turn that stays before the cut is the same in every text that agrees up to there. */
  lemma SameTurn(s: string, t: string, pos: nat, cut: nat)
    requires AgreeTo(s, t, cut) && 1 <= pos < cut && s[0] == '/'
    requires TurnAt(s, pos).Took? && pos < TurnAt(s, pos).next <= cut
    ensures TurnAt(t, pos) == TurnAt(s, pos)
  {
    hide Find, SameSearches, TurnAt;
    SlashBefore(s, pos);
    SearchesAgree(s, t, pos, cut);
    var open := Find(s, '[', pos);
    if open == -1 || Find(s, '/', pos) < open {
      SamePlainTurn(s, t, pos, cut);
    } else {
      TestEnds(s, pos);
      SameTestTurn(s, t, pos, cut);
    }
  }

  lemma TestEnds(s: string, pos: nat)
    requires 1 <= pos <= |s| && s[0] == '/' && TurnAt(s, pos).Took? && pos < TurnAt(s, pos).next
    requires 0 <= Find(s, '[', pos) <= Find(s, '/', pos)
    ensures Find(s, '[', pos) < Find(s, '/', pos) && Find(s, '[', pos) + 2 < TurnAt(s, pos).next
  {
    hide Find, TurnInBracket;
    BracketMoves(s, TurnAt(s, pos).part.prefix, TurnAt(s, pos).part.local, Find(s, '[', pos));
  }

  /** The first slash of a part is at most the one that ends it. */
  lemma SlashBefore(s: string, pos: nat)
    requires 1 <= pos <= |s| && s[0] == '/' && TurnAt(s, pos).Took? && pos < TurnAt(s, pos).next
    ensures 0 <= Find(s, '/', pos) < TurnAt(s, pos).next
    ensures TurnAt(s, pos).next <= |s|
  {
    hide Find;
    TurnMoves(s, pos);
    FindSkips(s, '/', pos);
  }

  // ---------- Reaching a part ----------

  /** The loop moves forward from `pos` and comes to `cut`. */
  ghost predicate Reaches(expr: string, pos: nat, cut: nat)
    requires cut <= |expr|
    decreases cut - pos
  {
    pos == cut ||
    (pos < cut && TurnAt(expr, pos).Took? && pos < TurnAt(expr, pos).next <= cut &&
     Reaches(expr, TurnAt(expr, pos).next, cut))
  }

  lemma {:induction false} ReachesMeansAccepted(expr: string, pos: nat, cut: nat)
    requires 1 <= pos <= cut <= |expr| && expr[0] == '/' && expr[cut - 1] == '/' && Reaches(expr, pos, cut)
    ensures SplitFrom(Completed(expr, cut), pos).Ok?
    decreases cut - pos
  {
    hide Find, TurnAt;
    var t := Completed(expr, cut);
    if pos == cut {
      EndsThere(expr, cut);
    } else {
      SameTurn(expr, t, pos, cut);
      ReachesMeansAccepted(expr, TurnAt(expr, pos).next, cut);
    }
  }

  lemma EndsThere(expr: string, cut: nat)
    requires 1 <= cut <= |expr|
    ensures TurnAt(Completed(expr, cut), cut) == Left
    ensures SplitFrom(Completed(expr, cut), cut).Ok?
  {
    hide Find;
    var t := Completed(expr, cut);
    assert t[cut..|t|] == "@y";
    FindFrom(t, '/', cut, |t|);
  }

  lemma {:induction false} AcceptedMeansReaches(expr: string, pos: nat, cut: nat)
    requires 1 <= pos <= cut <= |expr| && expr[0] == '/' && expr[cut - 1] == '/'
    requires SplitFrom(Completed(expr, cut), pos).Ok?
    ensures Reaches(expr, pos, cut)
    decreases cut - pos
  {
    hide Find, TurnAt;
    var t := Completed(expr, cut);
    if pos < cut {
      TurnsBefore(expr, pos, cut);
      SameTurn(t, expr, pos, cut);
      AcceptedMeansReaches(expr, TurnAt(t, pos).next, cut);
    }
  }

  lemma TurnsBefore(expr: string, pos: nat, cut: nat)
    requires 1 <= pos < cut <= |expr| && expr[0] == '/' && expr[cut - 1] == '/'
    requires SplitFrom(Completed(expr, cut), pos).Ok?
    ensures var turn := TurnAt(Completed(expr, cut), pos); turn.Took? && pos < turn.next <= cut
  {
    hide Find;
    var t := Completed(expr, cut);
    assert t[cut - 1] == '/';
    FindSkips(t, '/', pos);
    TurnMoves(t, pos);
    assert t[cut] == '@' && t[cut + 1] == 'y';
  }

  // ---------- The exact condition ----------

  /** A turn restarts at position 1 exactly at a part that is left open. */
  lemma RestartsAt(expr: string, pos: nat)
    requires 1 <= pos <= |expr| && expr[0] == '/'
    ensures TurnAt(expr, pos).Took? && TurnAt(expr, pos).next <= pos <==> LeftOpen(expr, pos)
  {
    hide Find, TurnInBracket;
    var slash, open := Find(expr, '/', pos), Find(expr, '[', pos);
    if 0 <= open < slash {
      NoClosing(expr, open);
      if NameStart(expr, pos) < open && expr[open + 1] == '@' {
        Unclosed(expr, TurnAt(expr, pos), pos, open);
      }
    }
    if TurnAt(expr, pos).Took? {
      TurnMoves(expr, pos);
    }
  }

  lemma NoClosing(expr: string, open: nat)
    requires open <= |expr|
    ensures Find(expr, ']', open) == -1 <==> ']' !in expr[open..]
  {
    hide Find;
    FindSkips(expr, ']', open);
    if Find(expr, ']', open) >= 0 {
      assert expr[open..][Find(expr, ']', open) - open] == ']';
    }
  }

  lemma Unclosed(expr: string, turn: Turn, pos: nat, open: nat)
    requires 1 <= pos < open && open + 1 < |expr| && expr[0] == '/' && expr[open] == '[' && expr[open + 1] == '@'
    requires exists prefix, local :: turn == TurnInBracket(expr, prefix, local, open)
    ensures Find(expr, ']', open) == -1 ==> turn.Took? && turn.next == 1
  {
    hide Find;
  }

  lemma {:induction false} HangsMeansLeftOpen(expr: string, pos: nat) returns (cut: nat)
    requires 1 <= pos <= |expr| && expr[0] == '/' && expr[pos - 1] == '/' && SplitFrom(expr, pos).Hangs?
    ensures pos <= cut <= |expr| && expr[cut - 1] == '/' && Reaches(expr, pos, cut) && LeftOpen(expr, cut)
    decreases |expr| - pos
  {
    hide Find, TurnAt, LeftOpen;
    RestartsAt(expr, pos);
    TurnMoves(expr, pos);
    if LeftOpen(expr, pos) {
      cut := pos;
    } else {
      cut := HangsMeansLeftOpen(expr, TurnAt(expr, pos).next);
    }
  }

  lemma {:induction false} LeftOpenMeansHangs(expr: string, pos: nat, cut: nat)
    requires 1 <= pos <= cut <= |expr| && expr[0] == '/' && Reaches(expr, pos, cut) && LeftOpen(expr, cut)
    ensures SplitFrom(expr, pos).Hangs?
    decreases cut - pos
  {
    hide Find, TurnAt, LeftOpen;
    if pos == cut {
      RestartsAt(expr, pos);
    } else {
      LeftOpenMeansHangs(expr, TurnAt(expr, pos).next, cut);
    }
  }

  /** The splitter runs for ever exactly on the texts with a part left open after accepted ones. */
  lemma RunsForEverIff(expr: string)
    ensures RunsForEver(expr) <==> exists pos :: StartsPart(expr, pos) && LeftOpen(expr, pos)
  {
    hide SplitFrom, TurnAt, LeftOpen;
    HangsIsDivergence(expr);
    if Split(expr).Hangs? {
      var cut := HangsMeansLeftOpen(expr, 1);
      ReachesMeansAccepted(expr, 1, cut);
      assert StartsPart(expr, cut);
    }
    if pos :| StartsPart(expr, pos) && LeftOpen(expr, pos) {
      assert expr[0] == Completed(expr, pos)[0];
      AcceptedMeansReaches(expr, 1, pos);
      LeftOpenMeansHangs(expr, 1, pos);
    }
  }
}
