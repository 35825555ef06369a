/**
 Configuration text as an author writes it, with its own literals: section headers, sub-headers,
 entry lines, comments, empty lines and blanks around them.  Loading such a text gives exactly the
 tables that it was written for.
 */
module ConfigPrinter {
  import opened Prelude
  import opened PathSplitter
  import opened StateConfig
  import opened StateTable
  import opened StateDocument
  import opened StateSections

  // ---------- Characters ----------

  /** Space, tab, line feed, vertical tab, form feed, carriage return. */
  predicate IsBlankChar(c: char) {
    c == ' ' || c == '\t' || c == '\n' || c == '\U{0B}' || c == '\U{0C}' || c == '\r'
  }

  /** What may stand between a key and the rest of its line. */
  predicate IsSeparator(c: char) {
    c == '\t' || c == ' ' || c == '=' || c == ':'
  }

  lemma SameBlanks(c: char)
    ensures IsSpace(c) <==> IsBlankChar(c)
  {
    assert c as int == 11 <==> c == '\U{0B}';
    assert c as int == 12 <==> c == '\U{0C}';
  }

  lemma SameSeparators(c: char)
    ensures IsDelimiter(c) <==> IsSeparator(c)
  {
  }

  predicate BlankText(s: string) {
    forall i :: 0 <= i < |s| ==> IsBlankChar(s[i])
  }

  // ---------- Entry lines ----------

  /** Neither blank at an end, nor a comment. */
  predicate Solid(s: string) {
    s != "" && !IsBlankChar(s[0]) && !IsBlankChar(s[|s| - 1]) && s[0] != '#'
  }

  datatype Item = Item(key: string, gap: string, rest: string)

  /** A key without separators, a gap of them, and a rest that starts with none. */
  predicate Splittable(it: Item) {
    && (forall i :: 0 <= i < |it.key| ==> !IsSeparator(it.key[i]))
    && it.gap != "" && (forall i :: 0 <= i < |it.gap| ==> IsSeparator(it.gap[i]))
    && it.rest != "" && !IsSeparator(it.rest[0])
  }

  /** A line that can stand in a section: no blank ends, and neither a comment nor a header. */
  predicate Ordinary(line: string) {
    Solid(line) && line[0] != '['
  }

  predicate GoodItem(it: Item) {
    Splittable(it) && Ordinary(PrintItem(it))
  }

  function PrintItem(it: Item): string {
    it.key + it.gap + it.rest
  }

  function PrintItems(items: seq<Item>): seq<string> {
    seq(|items|, i requires 0 <= i < |items| => PrintItem(items[i]))
  }

  /** For every key, gap of separators and rest that starts with none, the line is read as key and rest. */
  lemma ItemIsRead(it: Item)
    requires Splittable(it)
    ensures ParseLine(PrintItem(it)) == Some(Entry(it.key, it.rest))
  {
    hide ParseLine, IsDelimiter, IsSeparator;
    forall c ensures IsDelimiter(c) <==> IsSeparator(c) {
      SameSeparators(c);
    }
    assert Consists(PrintItem(it), it.key, it.gap, it.rest);
    ParseLineReads(PrintItem(it), it.key, it.rest);
  }

  /** A line that is read has that form. */
  lemma ReadIsItem(line: string) returns (it: Item)
    requires ParseLine(line).Some?
    ensures Splittable(it) && PrintItem(it) == line
  {
    hide ParseLine, IsDelimiter, IsSeparator;
    forall c ensures IsDelimiter(c) <==> IsSeparator(c) {
      SameSeparators(c);
    }
    var e := ParseLine(line).value;
    assert ParseLine(line) == Some(Entry(e.key, e.rest));
    ParseLineReads(line, e.key, e.rest);
    var gap :| Consists(line, e.key, gap, e.rest);
    it := Item(e.key, gap, e.rest);
  }

  // ---------- Sections ----------

  function TypeHeader(t: StateType): string {
    match t
    case AgentState => "[AgentState]"
    case DialogState => "[DialogState]"
    case UserState => "[UserState]"
    case ContextState => "[ContextState]"
    case SystemState => "[SystemState]"
  }

  datatype Source = Source(kind: StateType, prefixes: seq<Item>, names: seq<Item>)

  function PrintSource(s: Source): seq<string> {
    [TypeHeader(s.kind), "[namespace prefixes]"] + PrintItems(s.prefixes) + ["[short names]"] + PrintItems(s.names)
  }

  function PrintSources(sources: seq<Source>): seq<string> {
    if sources == [] then [] else PrintSource(sources[0]) + PrintSources(sources[1..])
  }

  /** Good lines, at least one prefix, accepted paths, and no short name or path twice. */
  predicate GoodSource(s: Source) {
    && s.prefixes != []
    && (forall i :: 0 <= i < |s.prefixes| ==> GoodItem(s.prefixes[i]))
    && (forall i :: 0 <= i < |s.names| ==> GoodItem(s.names[i]) && Split(s.names[i].rest).Ok?)
    && forall i, j :: 0 <= i < j < |s.names| ==>
         s.names[i].key != s.names[j].key && s.names[i].rest != s.names[j].rest
  }

  // ---------- Whole texts ----------

  /** A line of the text: content between blanks, a comment, or nothing but blanks. */
  datatype Line = Content(left: string, line: string, right: string) | Comment(left: string, text: string)
                | Empty(blanks: string)

  function PrintLine(l: Line): string {
    match l
    case Content(left, line, right) => left + line + right
    case Comment(left, text) => left + "#" + text
    case Empty(blanks) => blanks
  }

  predicate GoodLayout(l: Line) {
    match l
    case Content(left, _, right) => BlankText(left) && BlankText(right)
    case Comment(left, _) => BlankText(left)
    case Empty(blanks) => BlankText(blanks)
  }

  function PrintText(lines: seq<Line>): seq<string> {
    if lines == [] then []
    else PrintText(lines[..|lines| - 1]) + [PrintLine(lines[|lines| - 1])]
  }

  function Contents(lines: seq<Line>): seq<string> {
    if lines == [] then []
    else
      var init, last := Contents(lines[..|lines| - 1]), lines[|lines| - 1];
      if last.Content? then init + [last.line] else init
  }

  // ---------- Layout is skipped ----------

  lemma BlankIsBlank(s: string)
    requires BlankText(s)
    ensures Blank(s)
  {
    forall i | 0 <= i < |s| ensures IsSpace(s[i]) {
      SameBlanks(s[i]);
    }
  }

  lemma ContentIsTrimmed(left: string, line: string, right: string)
    requires BlankText(left) && BlankText(right) && Solid(line)
    ensures Trimmed(left + line + right) == line && !Skipped(left + line + right)
  {
    hide Trimmed, IsSpace;
    BlankIsBlank(left);
    BlankIsBlank(right);
    SameBlanks(line[0]);
    SameBlanks(line[|line| - 1]);
    TrimmedIsTheTrim(left + line + right, left, line, right);
  }

  lemma {:induction false} DropRightKeepsHead(s: string)
    requires s != "" && !IsSpace(s[0])
    ensures DropRight(s) != "" && DropRight(s)[0] == s[0]
  {
    if |s| > 1 && IsSpace(s[|s| - 1]) {
      DropRightKeepsHead(s[..|s| - 1]);
    }
  }

  lemma CommentIsSkipped(left: string, text: string)
    requires BlankText(left)
    ensures Skipped(left + "#" + text)
  {
    hide IsSpace, DropRight;
    BlankIsBlank(left);
    assert left + "#" + text == left + ("#" + text);
    DropLeftBlank(left, "#" + text);
    SameBlanks('#');
    assert DropLeft("#" + text) == "#" + text;
    DropRightKeepsHead("#" + text);
  }

  lemma EmptyIsSkipped(blanks: string)
    requires BlankText(blanks)
    ensures Skipped(blanks)
  {
    hide Trimmed;
    BlankIsBlank(blanks);
    assert blanks == blanks + "" + "";
    TrimmedIsTheTrim(blanks, blanks, "", "");
  }

  /** What is kept of a text is the content of its lines. */
  lemma {:induction false} KeptIsContent(lines: seq<Line>)
    requires forall i :: 0 <= i < |lines| ==> GoodLayout(lines[i])
    requires forall i :: 0 <= i < |Contents(lines)| ==> Solid(Contents(lines)[i])
    ensures Kept(PrintText(lines)) == Contents(lines)
    decreases |lines|
  {
    hide Skipped, Trimmed, Solid, BlankText;
    if lines != [] {
      var init, last := lines[..|lines| - 1], lines[|lines| - 1];
      assert forall i :: 0 <= i < |Contents(init)| ==> Contents(init)[i] == Contents(lines)[i];
      KeptIsContent(init);
      var text := PrintText(lines);
      assert text[..|text| - 1] == PrintText(init);
      match last {
        case Content(left, line, right) =>
          assert Contents(lines)[|Contents(init)|] == line;
          ContentIsTrimmed(left, line, right);
        case Comment(left, comment) => CommentIsSkipped(left, comment);
        case Empty(blanks) => EmptyIsSkipped(blanks);
      }
    }
  }

  // ---------- Lines of a source ----------

  lemma TypeHeaderIsHeader(t: StateType)
    ensures TypeHeader(t) == Header(t)
  {
  }

  lemma HeadersAreSolid(t: StateType)
    ensures Solid(TypeHeader(t)) && IsHeader(TypeHeader(t))
    ensures TypeHeader(t) != PREFIX_HEADER && TypeHeader(t) != NAMES_HEADER
  {
    TypeHeaderIsHeader(t);
    assert TypeHeader(t)[1] != 'n' && TypeHeader(t)[1] != 's';
    assert PREFIX_HEADER[1] == 'n' && NAMES_HEADER[1] == 's';
    assert TypeHeader(t)[0] == '[' && TypeHeader(t)[|TypeHeader(t)| - 1] == ']';
  }

  lemma SubHeadersAreSolid()
    ensures Solid("[namespace prefixes]") && Solid("[short names]")
    ensures !IsHeader("[namespace prefixes]") && !IsHeader("[short names]")
    ensures PREFIX_HEADER == "[namespace prefixes]" && NAMES_HEADER == "[short names]"
    ensures PREFIX_HEADER != NAMES_HEADER
  {
    assert "[namespace prefixes]"[0] == '[' && "[namespace prefixes]"[1] == 'n' && "[namespace prefixes]"[19] == ']';
    assert "[short names]"[0] == '[' && "[short names]"[1] == 's' && "[short names]"[12] == ']';
    forall t ensures Header(t)[1] != 'n' && Header(t)[1] != 's' { }
  }

  lemma OrdinaryLines(line: string)
    requires Ordinary(line)
    ensures !IsHeader(line) && line != PREFIX_HEADER && line != NAMES_HEADER
  {
    forall t ensures Header(t)[0] == '[' { }
    assert PREFIX_HEADER[0] == '[' && NAMES_HEADER[0] == '[';
  }

  lemma ItemsAreSolid(it: Item)
    requires GoodItem(it)
    ensures Solid(PrintItem(it)) && !IsHeader(PrintItem(it))
    ensures PrintItem(it) != PREFIX_HEADER && PrintItem(it) != NAMES_HEADER
  {
    hide IsHeader;
    OrdinaryLines(PrintItem(it));
  }
}
