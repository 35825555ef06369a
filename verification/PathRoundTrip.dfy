/** Splitting undoes printing, for every path of the documented grammar that is printable at all. */
module PathRoundTrip {
  import opened PathSyntax
  import opened PathSplitter
  import opened PathLossless

  const DELIMITERS := "/[]:='@"

  predicate Plain(s: string) {
    forall c :: c in s ==> c !in DELIMITERS
  }

  /** A step of the documented grammar: plain names, a local name, a value only with a name. */
  predicate InGrammar(p: Part) {
    Plain(p.prefix) && Plain(p.local) && p.local != "" && Plain(p.att) && (p.att == "" ==> p.val == "")
  }

  predicate LastInGrammar(last: Last) {
    last.AttributeNamed? ==> '/' !in last.name
  }

  predicate PathInGrammar(parts: Parts) {
    (forall i :: 0 <= i < |parts.steps| ==> InGrammar(parts.steps[i])) && LastInGrammar(parts.last)
  }

  predicate ColonBeforeSlash(s: string) {
    var colon, slash := Find(s, ':', 0), Find(s, '/', 0);
    colon >= 0 && (slash < 0 || colon < slash)
  }

  /** The values that survive: no `]`, and no early colon that would pass for a missing prefix's. */
  predicate Readable(p: Part) {
    ']' !in p.val && (p.prefix == "" ==> !ColonBeforeSlash(p.val))
  }

  /** The step `p`, printed, stands in `expr` from `pos` to `end`, and a slash follows. */
  ghost predicate StandsAt(expr: string, pos: nat, p: Part, end: nat) {
    pos <= end < |expr| && expr[pos..end] == PrintStep(p) && expr[end] == '/' && InGrammar(p)
  }

  function NameAt(pos: nat, p: Part): nat {
    pos + |PrintPrefix(p)|
  }

  function TestAt(pos: nat, p: Part): nat {
    NameAt(pos, p) + |p.local|
  }

  lemma Pieces(expr: string, pos: nat, p: Part, end: nat)
    requires StandsAt(expr, pos, p, end)
    ensures TestAt(pos, p) <= end
    ensures expr[pos..NameAt(pos, p)] == PrintPrefix(p)
    ensures expr[NameAt(pos, p)..TestAt(pos, p)] == p.local
    ensures expr[TestAt(pos, p)..end] == PrintTest(p)
  {
    var c, m, t := PrintPrefix(p), p.local, PrintTest(p);
    var s := expr[pos..end];
    assert s[..|c|] == c && s[|c|..|c| + |m|] == m && s[|c| + |m|..] == t;
    SubSlice(expr, pos, end, |c|, |c| + |m|);
    SubSlice(expr, pos, end, |c| + |m|, |s|);
  }

  /** Nothing between a printed step's start and its test stops a search for a slash or bracket. */
  lemma NamesArePlain(expr: string, pos: nat, p: Part, end: nat)
    requires StandsAt(expr, pos, p, end)
    ensures TestAt(pos, p) <= end
    ensures '/' !in expr[pos..TestAt(pos, p)] && '[' !in expr[pos..TestAt(pos, p)]
    ensures p.prefix == "" ==> ':' !in expr[pos..TestAt(pos, p)]
  {
    Pieces(expr, pos, p, end);
    Cut(expr, pos, NameAt(pos, p), TestAt(pos, p));
  }

  lemma PrefixColon(expr: string, pos: nat, p: Part, end: nat)
    requires StandsAt(expr, pos, p, end) && p.prefix != ""
    ensures Find(expr, ':', pos) == NameAt(pos, p) - 1
    ensures expr[pos..NameAt(pos, p) - 1] == p.prefix
  {
    hide Find;
    Pieces(expr, pos, p, end);
    var colon := NameAt(pos, p) - 1;
    assert expr[pos..colon + 1][|p.prefix|] == ':';
    assert expr[pos..colon] == expr[pos..colon + 1][..|p.prefix|];
    FindFrom(expr, ':', pos, colon);
  }

  lemma TurnWithoutTest(expr: string, pos: nat, p: Part, end: nat)
    requires StandsAt(expr, pos, p, end) && p.att == ""
    ensures TurnAt(expr, pos) == Took(p, end + 1)
  {
    hide Find, TurnInBracket, Plain;
    Pieces(expr, pos, p, end);
    NamesArePlain(expr, pos, p, end);
    FindFrom(expr, '/', pos, end);
    FindFrom(expr, '[', pos, end);
    if p.prefix != "" {
      PrefixColon(expr, pos, p, end);
    } else {
      FindFrom(expr, ':', pos, end);
    }
  }

  // ---------- Steps with an attribute test ----------

  lemma SubSlice(s: string, from: nat, to: nat, i: nat, j: nat)
    requires i <= j && from + j <= to <= |s|
    ensures s[from..to][i..j] == s[from + i..from + j]
  {
    var a, b := s[from..to][i..j], s[from + i..from + j];
    assert forall k :: 0 <= k < |b| ==> a[k] == b[k];
  }

  lemma TestPieces(expr: string, open: nat, att: string, val: string, end: nat)
    requires open <= end < |expr| && expr[open..end] == "[@" + att + "='" + val + "']"
    ensures var equal := open + 2 + |att|;
            && end == equal + |val| + 4
            && expr[open] == '[' && expr[open + 1] == '@' && expr[open + 2..equal] == att
            && expr[equal] == '=' && expr[equal + 1] == '\'' && expr[equal + 2..end - 2] == val
            && expr[end - 2] == '\'' && expr[end - 1] == ']'
  {
    var s := expr[open..end];
    var k := 2 + |att|;
    assert s[2..k] == att && s[k + 2..|s| - 2] == val;
    assert s[0] == '[' && s[1] == '@' && s[k] == '=' && s[k + 1] == '\'';
    assert s[|s| - 2] == '\'' && s[|s| - 1] == ']';
    SubSlice(expr, open, end, 2, k);
    SubSlice(expr, open, end, k + 2, |s| - 2);
  }

  lemma ValuedTurn(expr: string, prefix: string, local: string, open: nat, p: Part, end: nat)
    requires open <= end < |expr| && expr[end] == '/' && InGrammar(p) && ']' !in p.val
    requires p.val != "" && expr[open..end] == PrintTest(p)
    ensures open + 1 < |expr| && expr[open] == '[' && expr[open + 1] == '@'
    ensures TurnInBracket(expr, prefix, local, open)
         == Took(Part(prefix, local, p.att, p.val), end + 1)
  {
    hide Find, Plain, TurnInBracket;
    TestPieces(expr, open, p.att, p.val, end);
    NoBracketInside(expr, open, p.att, p.val, end);
    FindFrom(expr, '=', open, open + 2 + |p.att|);
    FindFrom(expr, ']', open, end - 1);
    BracketReads(expr, prefix, local, open, open + 2 + |p.att|, end - 1);
  }

  lemma BracketReads(expr: string, prefix: string, local: string, open: nat, equal: nat, close: nat)
    requires open + 2 <= equal && equal + 2 < close && close + 1 < |expr|
    requires expr[open] == '[' && expr[open + 1] == '@' && expr[equal + 1] == '\'' && expr[close - 1] == '\''
    requires Find(expr, '=', open) == equal && Find(expr, ']', open) == close && expr[close + 1] == '/'
    ensures TurnInBracket(expr, prefix, local, open)
         == Took(Part(prefix, local, expr[open + 2..equal], expr[equal + 2..close - 1]), close + 2)
  {
    hide Find;
  }

  lemma NoBracketInside(expr: string, open: nat, att: string, val: string, end: nat)
    requires open <= end < |expr| && expr[open..end] == "[@" + att + "='" + val + "']"
    requires Plain(att) && ']' !in val
    ensures '=' !in expr[open..open + 2 + |att|]
    ensures ']' !in expr[open..end - 1]
  {
    assert expr[open..open + 2 + |att|] == expr[open..end][..2 + |att|] == "[@" + att;
    assert expr[open..end - 1] == expr[open..end][..end - open - 1] == "[@" + att + "='" + val + "'";
  }

  lemma ValuelessTurn(expr: string, prefix: string, local: string, open: nat, p: Part, end: nat)
    requires open <= end < |expr| && expr[end] == '/' && InGrammar(p)
    requires p.val == "" && p.att != "" && expr[open..end] == PrintTest(p)
    ensures open + 1 < |expr| && expr[open] == '[' && expr[open + 1] == '@'
    ensures TurnInBracket(expr, prefix, local, open)
         == Took(Part(prefix, local, p.att, p.val), end + 1)
  {
    hide Find, Plain;
    ValuelessPieces(expr, open, p.att, end);
    FindFrom(expr, '=', open, end - 1);
    FindFrom(expr, ']', open, end - 1);
  }

  lemma ValuelessPieces(expr: string, open: nat, att: string, end: nat)
    requires open <= end < |expr| && expr[open..end] == "[@" + att + "]" && Plain(att)
    ensures end == open + |att| + 3
    ensures expr[open] == '[' && expr[open + 1] == '@' && expr[end - 1] == ']'
    ensures expr[open + 2..end - 1] == att
    ensures '=' !in expr[open..end - 1] && ']' !in expr[open..end - 1]
  {
    var s := expr[open..end];
    assert s[0] == '[' && s[1] == '@' && s[|s| - 1] == ']' && s[2..|s| - 1] == att;
    SubSlice(expr, open, end, 2, |s| - 1);
    assert expr[open..end - 1] == "[@" + expr[open + 2..end - 1];
  }

  /** For a step without prefix, what an early colon in its value does to the two searches. */
  lemma ColonAgainstSlash(expr: string, pos: nat, p: Part, end: nat)
    requires StandsAt(expr, pos, p, end) && p.prefix == "" && p.att != ""
    ensures Find(expr, '/', pos) > TestAt(pos, p)
    ensures var colon := Find(expr, ':', pos);
            0 <= colon < Find(expr, '/', pos) <==> ColonBeforeSlash(p.val)
    ensures Find(expr, ':', pos) != pos
  {
    hide Find, StandsAt, ColonBeforeSlash;
    if p.val == "" {
      ColonWithoutValue(expr, pos, p, end);
    } else {
      ColonWithValue(expr, pos, p, end);
    }
  }

  lemma ColonWithoutValue(expr: string, pos: nat, p: Part, end: nat)
    requires StandsAt(expr, pos, p, end) && p.prefix == "" && p.att != "" && p.val == ""
    ensures Find(expr, '/', pos) > TestAt(pos, p)
    ensures var colon := Find(expr, ':', pos);
            0 <= colon < Find(expr, '/', pos) <==> ColonBeforeSlash(p.val)
    ensures Find(expr, ':', pos) != pos
  {
    hide Find, ColonBeforeSlash, Plain;
    Pieces(expr, pos, p, end);
    NamesArePlain(expr, pos, p, end);
    var open := TestAt(pos, p);
    PlainTest(p.att);
    Cut(expr, pos, open, end);
    ColonBeyondStep(expr, pos, end);
  }

  lemma EmptyIsPlain()
    ensures Plain("") && !ColonBeforeSlash("")
  {
  }

  lemma PlainTest(att: string)
    requires Plain(att)
    ensures ':' !in "[@" + att + "]" && '/' !in "[@" + att + "]"
    ensures !ColonBeforeSlash("")
  {
    assert ':' in DELIMITERS && '/' in DELIMITERS;
  }

  lemma ColonWithValue(expr: string, pos: nat, p: Part, end: nat)
    requires StandsAt(expr, pos, p, end) && p.prefix == "" && p.att != "" && p.val != ""
    ensures Find(expr, '/', pos) > TestAt(pos, p)
    ensures var colon := Find(expr, ':', pos);
            0 <= colon < Find(expr, '/', pos) <==> ColonBeforeSlash(p.val)
    ensures Find(expr, ':', pos) != pos
  {
    hide Find, ColonBeforeSlash;
    Pieces(expr, pos, p, end);
    NamesArePlain(expr, pos, p, end);
    var open := TestAt(pos, p);
    TestPieces(expr, open, p.att, p.val, end);
    var base := open + 4 + |p.att|;
    ValuedTestPrefix(expr, open, p.att, base);
    Cut(expr, pos, open, base);
    ColonInValue(expr, pos, base, p.val, end);
  }

  lemma ValuedTestPrefix(expr: string, open: nat, att: string, base: nat)
    requires open + 4 + |att| == base < |expr| && Plain(att)
    requires expr[open] == '[' && expr[open + 1] == '@' && expr[open + 2..base - 2] == att
    requires expr[base - 2] == '=' && expr[base - 1] == '\''
    ensures ':' !in expr[open..base] && '/' !in expr[open..base]
  {
    assert expr[open..base] == "[@" + att + "='";
  }

  lemma ColonBeyondStep(expr: string, pos: nat, end: nat)
    requires pos <= end < |expr| && expr[end] == '/'
    requires ':' !in expr[pos..end] && '/' !in expr[pos..end]
    ensures Find(expr, '/', pos) == end
    ensures var colon := Find(expr, ':', pos); colon < 0 || colon > end
  {
    hide Find;
    FindFrom(expr, ':', pos, end);
    FindFrom(expr, '/', pos, end);
  }

  lemma ColonInValue(expr: string, pos: nat, base: nat, val: string, end: nat)
    requires pos < base && base + 2 <= end < |expr| && expr[base..end - 2] == val
    requires ':' !in expr[pos..base] && '/' !in expr[pos..base]
    requires expr[end - 2] == '\'' && expr[end - 1] == ']' && expr[end] == '/'
    ensures base <= Find(expr, '/', pos)
    ensures Find(expr, ':', pos) < 0 || base <= Find(expr, ':', pos)
    ensures var colon := Find(expr, ':', pos);
            0 <= colon < Find(expr, '/', pos) <==> ColonBeforeSlash(val)
  {
    hide Find;
    FindFrom(expr, ':', pos, base);
    FindFrom(expr, '/', pos, base);
    FindInSlice(expr, ':', base, base, end - 2);
    FindInSlice(expr, '/', base, base, end - 2);
    FindSkips(expr, '/', base);
  }

  lemma TurnOfPrinted(expr: string, pos: nat, p: Part, end: nat)
    requires StandsAt(expr, pos, p, end) && Readable(p)
    ensures TurnAt(expr, pos) == Took(p, end + 1)
  {
    if p.att == "" {
      TurnWithoutTest(expr, pos, p, end);
    } else {
      TurnWithTest(expr, pos, p, end);
    }
  }

  lemma TurnWithTest(expr: string, pos: nat, p: Part, end: nat)
    requires StandsAt(expr, pos, p, end) && Readable(p) && p.att != ""
    ensures TurnAt(expr, pos) == Took(p, end + 1)
  {
    hide Find, TurnAt, TurnInBracket, ColonBeforeSlash, Plain;
    Pieces(expr, pos, p, end);
    NamesArePlain(expr, pos, p, end);
    var open := TestAt(pos, p);
    if p.val != "" {
      ValuedTurn(expr, p.prefix, p.local, open, p, end);
    } else {
      ValuelessTurn(expr, p.prefix, p.local, open, p, end);
    }
    FindFrom(expr, '[', pos, open);
    SlashBeyondTest(expr, pos, open, end);
    if p.prefix != "" {
      PrefixColon(expr, pos, p, end);
    } else {
      ColonAgainstSlash(expr, pos, p, end);
    }
    OpensTest(expr, pos, NameAt(pos, p), open, p.prefix);
  }

  lemma OpensTest(expr: string, pos: nat, start: nat, open: nat, prefix: string)
    requires pos <= start < open && open + 1 < |expr| && expr[open + 1] == '@'
    requires Find(expr, '[', pos) == open < Find(expr, '/', pos)
    requires var colon := Find(expr, ':', pos);
             if 0 <= colon < Find(expr, '/', pos)
             then start == colon + 1 && prefix == expr[pos..colon]
             else start == pos && prefix == ""
    ensures TurnAt(expr, pos) == TurnInBracket(expr, prefix, expr[start..open], open)
  {
    hide Find, TurnInBracket;
  }

  lemma SlashBeyondTest(expr: string, pos: nat, open: nat, end: nat)
    requires pos <= open < end < |expr| && '/' !in expr[pos..open] && expr[open] == '['
    requires expr[end] == '/'
    ensures open < Find(expr, '/', pos)
  {
    hide Find;
    FindFrom(expr, '/', pos, open);
    FindSkips(expr, '/', open);
  }

  /** A value with a `]`, or an early colon without a prefix, is not read back. */
  lemma UnreadableTurn(expr: string, pos: nat, p: Part, end: nat)
    requires StandsAt(expr, pos, p, end) && !Readable(p)
    ensures TurnAt(expr, pos).Took? ==> TurnAt(expr, pos).part != p
  {
    hide Find, TurnInBracket, Plain;
    if TurnAt(expr, pos).Took? {
      ValueWithoutBracket(expr, pos);
      if p.prefix == "" && ColonBeforeSlash(p.val) {
        ColonAgainstSlash(expr, pos, p, end);
      }
    }
  }

  lemma ValueWithoutBracket(expr: string, pos: nat)
    requires pos <= |expr| && TurnAt(expr, pos).Took?
    ensures ']' !in TurnAt(expr, pos).part.val
  {
    hide Find;
    var open := Find(expr, '[', pos);
    if open >= 0 {
      FindSkips(expr, ']', open);
    }
  }

  // ---------- Whole paths ----------

  predicate AllReadable(steps: seq<Part>) {
    forall i :: 0 <= i < |steps| ==> Readable(steps[i])
  }

  lemma ReadableCons(p: Part, rest: seq<Part>)
    ensures AllReadable([p] + rest) <==> Readable(p) && AllReadable(rest)
  {
    assert ([p] + rest)[0] == p;
    assert forall i :: 0 <= i < |rest| ==> ([p] + rest)[i + 1] == rest[i];
  }

  lemma SplitTakes(expr: string, pos: nat, part: Part, next: nat, rest: seq<Part>, last: Last)
    requires pos < next <= |expr| && TurnAt(expr, pos) == Took(part, next)
    ensures SplitFrom(expr, pos) == Ok(Parts([part] + rest, last)) <==>
              SplitFrom(expr, next) == Ok(Parts(rest, last))
  {
    hide Find, TurnAt;
    var r := SplitFrom(expr, next);
    assert SplitFrom(expr, pos) == Prepend([part], r);
    if r.Ok? {
      assert ([part] + r.parts.steps)[1..] == r.parts.steps && ([part] + rest)[1..] == rest;
    }
  }

  lemma SplitStartsWith(expr: string, pos: nat, p: Part, rest: seq<Part>, last: Last)
    requires pos <= |expr| && (TurnAt(expr, pos).Took? ==> TurnAt(expr, pos).part != p)
    ensures SplitFrom(expr, pos) != Ok(Parts([p] + rest, last))
  {
    hide Find, TurnAt;
    assert ([p] + rest)[0] == p;
  }

  lemma SplitPrintedHead(expr: string, pos: nat, p: Part, end: nat, rest: seq<Part>, last: Last)
    requires StandsAt(expr, pos, p, end)
    ensures SplitFrom(expr, pos) == Ok(Parts([p] + rest, last)) <==>
              Readable(p) && SplitFrom(expr, end + 1) == Ok(Parts(rest, last))
  {
    hide TurnAt, SplitFrom, Readable;
    if Readable(p) {
      TurnOfPrinted(expr, pos, p, end);
      SplitTakes(expr, pos, p, end + 1, rest, last);
    } else {
      UnreadableTurn(expr, pos, p, end);
      SplitStartsWith(expr, pos, p, rest, last);
    }
  }

  lemma {:induction false} SplitPrintedFrom(expr: string, pos: nat, steps: seq<Part>, last: Last)
    requires 1 <= pos <= |expr| && PathInGrammar(Parts(steps, last))
    requires expr[pos - 1..] == PrintFrom(steps, last)
    ensures SplitFrom(expr, pos) == Ok(Parts(steps, last)) <==> AllReadable(steps)
    decreases |steps|
  {
    hide Find, TurnAt, SplitFrom, StandsAt, Readable, PrintStep;
    if steps == [] {
      assert expr[pos..] == expr[pos - 1..][1..];
      PrintedLast(expr, pos, last);
    } else {
      var p, rest := steps[0], steps[1..];
      var end := pos + |PrintStep(p)|;
      assert steps == [p] + rest;
      PrintedStep(expr, pos, p, PrintFrom(rest, last), end);
      SplitPrintedFrom(expr, end + 1, rest, last);
      SplitPrintedHead(expr, pos, p, end, rest, last);
      ReadableCons(p, rest);
    }
  }

  lemma PrintedLast(expr: string, pos: nat, last: Last)
    requires 1 <= pos <= |expr| && expr[pos..] == PrintLast(last) && LastInGrammar(last)
    ensures SplitFrom(expr, pos) == Ok(Parts([], last))
  {
    hide Find;
    assert '/' !in expr[pos..|expr|];
    FindFrom(expr, '/', pos, |expr|);
  }

  lemma PrintedStep(expr: string, pos: nat, p: Part, tail: string, end: nat)
    requires 1 <= pos <= |expr| && InGrammar(p) && end == pos + |PrintStep(p)|
    requires expr[pos - 1..] == "/" + PrintStep(p) + tail && tail != "" && tail[0] == '/'
    ensures StandsAt(expr, pos, p, end) && expr[end..] == tail
  {
    hide PrintStep, InGrammar;
    var s := expr[pos - 1..];
    assert s[1..1 + |PrintStep(p)|] == PrintStep(p) && s[1 + |PrintStep(p)|..] == tail;
    SubSlice(expr, pos - 1, |expr|, 1, 1 + |PrintStep(p)|);
    SubSlice(expr, pos - 1, |expr|, 1 + |PrintStep(p)|, |s|);
  }

  /**
   Splitting the printed text of a path in the grammar gives the path back exactly when no
   attribute value holds a `]` and no value of an unprefixed step has a colon before any slash.
   */
  lemma SplitUndoesPrint(parts: Parts)
    requires PathInGrammar(parts)
    ensures Split(Print(parts)) == Ok(parts) <==> AllReadable(parts.steps)
  {
    hide SplitFrom, PathInGrammar, AllReadable;
    var expr := Print(parts);
    assert expr[0] == '/' && expr[0..] == expr;
    SplitPrintedFrom(expr, 1, parts.steps, parts.last);
  }
}
