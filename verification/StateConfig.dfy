/** Cutting the state-info configuration text into one section for each kind of state. */
module StateConfig {
  import opened Prelude

  datatype StateType = AgentState | DialogState | UserState | ContextState | SystemState

  function Header(t: StateType): string {
    match t
    case AgentState => "[AgentState]"
    case DialogState => "[DialogState]"
    case UserState => "[UserState]"
    case ContextState => "[ContextState]"
    case SystemState => "[SystemState]"
  }

  // ---------- Trimming ----------

  predicate IsSpace(c: char) {
    c in " \t\n\r" || c as int == 11 || c as int == 12
  }

  predicate Blank(s: string) {
    forall i :: 0 <= i < |s| ==> IsSpace(s[i])
  }

  function DropLeft(s: string): string {
    if s != "" && IsSpace(s[0]) then DropLeft(s[1..]) else s
  }

  function DropRight(s: string): string {
    if s != "" && IsSpace(s[|s| - 1]) then DropRight(s[..|s| - 1]) else s
  }

  function Trimmed(s: string): string {
    DropRight(DropLeft(s))
  }

  /** `t` is `s` without blank ends, and has no blank end of its own. */
  ghost predicate IsTrimOf(s: string, a: string, t: string, b: string) {
    s == a + t + b && Blank(a) && Blank(b) &&
    (t != "" ==> !IsSpace(t[0]) && !IsSpace(t[|t| - 1]))
  }

  lemma {:induction false} DropLeftBlank(a: string, t: string)
    requires Blank(a)
    ensures DropLeft(a + t) == DropLeft(t)
  {
    if a == "" {
      assert a + t == t;
    } else {
      assert (a + t)[0] == a[0] && (a + t)[1..] == a[1..] + t;
      DropLeftBlank(a[1..], t);
    }
  }

  lemma {:induction false} DropRightBlank(t: string, b: string)
    requires Blank(b)
    ensures DropRight(t + b) == DropRight(t)
  {
    if b == "" {
      assert t + b == t;
    } else {
      assert (t + b)[|t + b| - 1] == b[|b| - 1];
      assert (t + b)[..|t + b| - 1] == t + b[..|b| - 1];
      DropRightBlank(t, b[..|b| - 1]);
    }
  }

  /** Trimming is determined by its result's shape: only one text can be the trimmed one. */
  lemma TrimmedIsTheTrim(s: string, a: string, t: string, b: string)
    requires IsTrimOf(s, a, t, b)
    ensures Trimmed(s) == t
  {
    assert s == a + (t + b);
    DropLeftBlank(a, t + b);
    if t == "" {
      assert t + b == b && b + "" == b && "" + b == b;
      DropLeftBlank(b, "");
    } else {
      assert (t + b)[0] == t[0];
      DropRightBlank(t, b);
    }
  }

  /** Blanks are erased from the front, then from the back. */
  method Trim(str: string) returns (t: string)
    ensures t == Trimmed(str)
  {
    t := str;
    var pos: nat := 0;
    while pos < |t| && IsSpace(t[pos])
      invariant pos <= |t| && Blank(t[..pos])
    {
      assert t[..pos + 1] == t[..pos] + [t[pos]];
      pos := pos + 1;
    }
    ghost var front := t[..pos];
    t := t[pos..];
    assert str == front + t;
    ghost var kept := t;
    pos := |t|;
    while pos > 0 && IsSpace(t[pos - 1])
      invariant pos <= |t| && Blank(t[pos..])
    {
      assert t[pos - 1..] == [t[pos - 1]] + t[pos..];
      pos := pos - 1;
    }
    t := t[..pos];
    assert str == front + t + kept[pos..];
    TrimmedIsTheTrim(str, front, t, kept[pos..]);
  }

  // ---------- Sections ----------

  predicate Skipped(line: string) {
    Trimmed(line) == "" || Trimmed(line)[0] == '#'
  }

  /** The trimmed lines that are neither blank nor comments. */
  function Kept(lines: seq<string>): seq<string> {
    if lines == [] then []
    else
      var n := |lines| - 1;
      Kept(lines[..n]) + if Skipped(lines[n]) then [] else [Trimmed(lines[n])]
  }

  predicate IsHeader(line: string) {
    exists t :: line == Header(t)
  }

  ghost predicate HasHeader(text: seq<string>, t: StateType) {
    Header(t) in text
  }

  /** The last header of `t` is at `h`, and the next header of any type, or the end, at `n`. */
  ghost predicate Spans(text: seq<string>, t: StateType, h: nat, n: nat) {
    && h < n <= |text| && text[h] == Header(t)
    && Header(t) !in text[h + 1..]
    && (forall i :: h < i < n ==> !IsHeader(text[i]))
    && (n < |text| ==> IsHeader(text[n]))
  }

  ghost predicate IsSection(text: seq<string>, t: StateType, section: seq<string>) {
    exists h: nat, n: nat :: Spans(text, t, h, n) && section == text[h..n]
  }

  /** Exactly the types with a header have a section, and it is the one that counts. */
  ghost predicate Sectioned(text: seq<string>, sections: map<StateType, seq<string>>) {
    forall t :: (t in sections <==> HasHeader(text, t)) &&
                (t in sections ==> IsSection(text, t, sections[t]))
  }

  /** A section that is over stays what it is when a later header and its lines follow. */
  lemma EarlierSection(text: seq<string>, start: nat, t: StateType, section: seq<string>)
    requires start < |text| && IsHeader(text[start]) && Header(t) !in text[start..]
    requires IsSection(text[..start], t, section)
    ensures IsSection(text, t, section)
  {
    hide IsHeader, Header;
    var h: nat, n: nat :| Spans(text[..start], t, h, n) && section == text[..start][h..n];
    assert text[h + 1..] == text[..start][h + 1..] + text[start..];
    assert Spans(text, t, h, n) && section == text[h..n];
  }

  /** Closing the section of `t` that starts at `start` and runs to the end of the text. */
  lemma CloseSection(
      text: seq<string>, start: nat, t: StateType, sections: map<StateType, seq<string>>)
    requires start < |text| && text[start] == Header(t) && Sectioned(text[..start], sections)
    requires forall i :: start < i < |text| ==> !IsHeader(text[i])
    ensures Sectioned(text, sections[t := text[start..]])
  {
    hide IsSection;
    assert IsSection(text, t, text[start..]) by {
      LastSection(text, start, t);
    }
    forall u | u != t
      ensures u in sections <==> HasHeader(text, u)
      ensures u in sections ==> IsSection(text, u, sections[u])
    {
      HeadersDiffer(t, u);
      assert text == text[..start] + text[start..];
      assert Header(u) !in text[start..];
      if u in sections {
        EarlierSection(text, start, u, sections[u]);
      }
    }
  }

  lemma LastSection(text: seq<string>, start: nat, t: StateType)
    requires start < |text| && text[start] == Header(t)
    requires forall i :: start < i < |text| ==> !IsHeader(text[i])
    ensures IsSection(text, t, text[start..])
  {
    assert Header(t) !in text[start + 1..];
    assert Spans(text, t, start, |text|) && text[start..] == text[start..|text|];
  }

  lemma HeadersDiffer(t: StateType, u: StateType)
    requires t != u
    ensures Header(t) != Header(u)
  {
    assert Header(AgentState)[1] == 'A' && Header(DialogState)[1] == 'D' && Header(UserState)[1] == 'U'
        && Header(ContextState)[1] == 'C' && Header(SystemState)[1] == 'S';
  }

  /** Which type a line is the header of, if any. */
  method HeaderType(line: string) returns (t: Option<StateType>)
    ensures t.Some? <==> IsHeader(line)
    ensures t.Some? ==> line == Header(t.value)
  {
    var types := [AgentState, DialogState, UserState, ContextState, SystemState];
    for i := 0 to |types|
      invariant forall j :: 0 <= j < i ==> line != Header(types[j])
    {
      if line == Header(types[i]) {
        return Some(types[i]);
      }
    }
    assert line != Header(types[0]) && line != Header(types[1]) && line != Header(types[2])
        && line != Header(types[3]) && line != Header(types[4]);
    return None;
  }

  /** What the scanning loop knows: the open section, if any, and the sections closed so far. */
  ghost predicate Scanning(
      text: seq<string>, start: nat, current: Option<StateType>, section: seq<string>,
      sections: map<StateType, seq<string>>)
  {
    if current.None? then
      sections == map[] && forall i :: 0 <= i < |text| ==> !IsHeader(text[i])
    else
      && start < |text| && text[start] == Header(current.value) && section == text[start..]
      && Sectioned(text[..start], sections)
      && forall i :: start < i < |text| ==> !IsHeader(text[i])
  }

  function Closed(current: Option<StateType>, section: seq<string>,
                  sections: map<StateType, seq<string>>): map<StateType, seq<string>> {
    if current.None? then sections else sections[current.value := section]
  }

  lemma ScanEnds(text: seq<string>, start: nat, current: Option<StateType>, section: seq<string>,
                 sections: map<StateType, seq<string>>)
    requires Scanning(text, start, current, section, sections)
    ensures Sectioned(text, Closed(current, section, sections))
  {
    if current.Some? {
      CloseSection(text, start, current.value, sections);
    }
  }

  lemma ScanLine(text: seq<string>, start: nat, current: Option<StateType>, section: seq<string>,
                 sections: map<StateType, seq<string>>, line: string)
    requires Scanning(text, start, current, section, sections) && !IsHeader(line)
    ensures Scanning(text + [line], start, current, section + [line], sections)
  {
    hide Sectioned;
    if current.Some? {
      assert (text + [line])[..start] == text[..start];
    }
  }

  lemma ScanHeader(text: seq<string>, start: nat, current: Option<StateType>, section: seq<string>,
                   sections: map<StateType, seq<string>>, t: StateType)
    requires Scanning(text, start, current, section, sections)
    ensures Scanning(text + [Header(t)], |text|, Some(t), [Header(t)],
                     Closed(current, section, sections))
  {
    ScanEnds(text, start, current, section, sections);
    assert (text + [Header(t)])[..|text|] == text;
  }

  /**
   Each type's section is the kept lines from its last header up to the next type header,
   sub-headers included.
   */
  method SplitSections(lines: seq<string>) returns (sections: map<StateType, seq<string>>)
    ensures Sectioned(Kept(lines), sections)
  {
    hide Scanning, Trimmed;
    sections := map[];
    var currentSection: seq<string> := [];
    var currentType: Option<StateType> := None;
    ghost var start: nat := 0;
    ScanStarts();
    for i := 0 to |lines|
      invariant Scanning(Kept(lines[..i]), start, currentType, currentSection, sections)
    {
      assert lines[..i + 1][..i] == lines[..i];
      ghost var text := Kept(lines[..i]);
      var line := Trim(lines[i]);
      if line == "" || line[0] == '#' {
        assert Kept(lines[..i + 1]) == text;
        continue;
      }
      assert Kept(lines[..i + 1]) == text + [line];
      var header: Option<StateType> := None;
      if line[0] == '[' {
        header := HeaderType(line);
      }
      if header.Some? {
        ScanHeader(text, start, currentType, currentSection, sections, header.value);
        if currentType.Some? {
          sections := sections[currentType.value := currentSection];
        }
        currentSection := [];
        assert [] + [line] == [line];
        currentType := header;
        start := |text|;
      } else {
        ScanLine(text, start, currentType, currentSection, sections, line);
      }
      currentSection := currentSection + [line];
    }
    assert lines[..|lines|] == lines;
    ScanEnds(Kept(lines), start, currentType, currentSection, sections);
    if currentType.Some? {
      sections := sections[currentType.value := currentSection];
    }
  }

  lemma ScanStarts()
    ensures Scanning(Kept([]), 0, None, [], map[])
  {
  }
}
