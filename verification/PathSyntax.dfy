/** The restricted XPath dialect of the state-info table: its parts, and how they are written. */
module PathSyntax {
  /** One element step: prefix, local name, and the optional attribute test. */
  datatype Part = Part(prefix: string, local: string, att: string, val: string)

  datatype Last = TextContent | AttributeNamed(name: string)

  datatype Parts = Parts(steps: seq<Part>, last: Last)

  function PrintTest(p: Part): string {
    if p.val != "" then "[@" + p.att + "='" + p.val + "']"
    else if p.att != "" then "[@" + p.att + "]"
    else ""
  }

  function PrintPrefix(p: Part): string {
    if p.prefix == "" then "" else p.prefix + ":"
  }

  function PrintStep(p: Part): string {
    PrintPrefix(p) + p.local + PrintTest(p)
  }

  function PrintLast(last: Last): string {
    match last
    case TextContent => "text()"
    case AttributeNamed(a) => "@" + a
  }

  /** Step texts and the last part's text, each after a slash. */
  function Join(steps: seq<string>, last: string): string {
    if steps == [] then "/" + last else "/" + steps[0] + Join(steps[1..], last)
  }

  function PrintFrom(steps: seq<Part>, last: Last): (s: string)
    ensures s != "" && s[0] == '/'
  {
    if steps == [] then "/" + PrintLast(last)
    else "/" + PrintStep(steps[0]) + PrintFrom(steps[1..], last)
  }

  function Print(parts: Parts): string {
    PrintFrom(parts.steps, parts.last)
  }

  /** The first position at or after `from` that holds `c`, or -1. */
  function Find(s: string, c: char, from: nat): (r: int)
    requires from <= |s|
    ensures -1 <= r < |s|
    ensures r >= 0 ==> from <= r && s[r] == c
    decreases |s| - from
  {
    if from == |s| then -1 else if s[from] == c then from else Find(s, c, from + 1)
  }

  lemma {:induction false} FindSkips(s: string, c: char, from: nat)
    requires from <= |s|
    ensures var r := Find(s, c, from);
            forall i :: from <= i < (if r < 0 then |s| else r) ==> s[i] != c
    decreases |s| - from
  {
    if from < |s| && s[from] != c {
      FindSkips(s, c, from + 1);
    }
  }

  /** A search may start later, after text without the character. */
  lemma {:induction false} FindFrom(s: string, c: char, from: nat, later: nat)
    requires from <= later <= |s| && c !in s[from..later]
    ensures Find(s, c, from) == Find(s, c, later)
    ensures later < |s| && s[later] == c ==> Find(s, c, from) == later
    decreases later - from
  {
    if from < later {
      assert s[from] == s[from..later][0];
      assert s[from + 1..later] == s[from..later][1..];
      FindFrom(s, c, from + 1, later);
    }
  }
}
