/** Loading a printed configuration: every section is found, and gives the table it was written for. */
module ConfigRoundTrip {
  import opened Prelude
  import opened PathSplitter
  import opened StateConfig
  import opened StateTable
  import opened StateDocument
  import opened StateSections
  import opened ConfigPrinter

  // ---------- Adding a line to a section ----------

  lemma {:induction false} PrefixOnly(lines: seq<string>, more: seq<string>, n: nat, mode: Mode)
    requires n <= |lines|
    ensures ModeAt(lines + more, n) == ModeAt(lines, n)
    ensures Entries(lines + more, n, mode) == Entries(lines, n, mode)
    decreases n
  {
    if n > 0 {
      PrefixOnly(lines, more, n - 1, mode);
    }
  }

  ghost predicate AllGood(lines: seq<string>) {
    forall i: nat :: i < |lines| ==> GoodLine(lines, i)
  }

  /** What a section's lines so far amount to. */
  datatype Progress = Progress(mode: Mode, prefixes: seq<Entry>, names: seq<Entry>)

  ghost predicate Amounts(lines: seq<string>, l: Progress) {
    && AllGood(lines) && ModeAt(lines, |lines|) == l.mode
    && Entries(lines, |lines|, Prefixes) == l.prefixes && Entries(lines, |lines|, Names) == l.names
  }

  lemma GoodStays(lines: seq<string>, line: string, i: nat)
    requires i < |lines| && GoodLine(lines, i)
    ensures GoodLine(lines + [line], i)
  {
    hide ParseLine, Split;
    PrefixOnly(lines, [line], i, Prefixes);
    PrefixOnly(lines, [line], i, Names);
  }

  lemma AddLine(lines: seq<string>, line: string, l: Progress, l': Progress)
    requires Amounts(lines, l)
    requires line == PREFIX_HEADER ==> l' == l.(mode := Prefixes)
    requires line == NAMES_HEADER ==> l.prefixes != [] && l' == l.(mode := Names)
    requires line != PREFIX_HEADER && line != NAMES_HEADER ==>
               match l.mode
               case Idle => l' == l
               case Prefixes => ParseLine(line).Some? && l' == l.(prefixes := l.prefixes + [ParseLine(line).value])
               case Names =>
                 && ParseLine(line).Some? && Split(ParseLine(line).value.rest).Ok?
                 && l' == l.(names := l.names + [ParseLine(line).value])
    ensures Amounts(lines + [line], l')
  {
    hide ParseLine, Split;
    var more, n := lines + [line], |lines|;
    PrefixOnly(lines, [line], n, Prefixes);
    PrefixOnly(lines, [line], n, Names);
    forall i: nat | i < n ensures GoodLine(more, i) {
      GoodStays(lines, line, i);
    }
    assert more[n] == line;
    assert GoodLine(more, n);
  }

  // ---------- Adding entries ----------

  function EntryOf(it: Item): Entry {
    Entry(it.key, it.rest)
  }

  function EntriesOf(items: seq<Item>): seq<Entry> {
    seq(|items|, i requires 0 <= i < |items| => EntryOf(items[i]))
  }

  lemma {:induction false} AddPrefixes(lines: seq<string>, items: seq<Item>, l: Progress)
    requires Amounts(lines, l) && l.mode == Prefixes
    requires forall i :: 0 <= i < |items| ==> GoodItem(items[i])
    ensures Amounts(lines + PrintItems(items), l.(prefixes := l.prefixes + EntriesOf(items)))
    decreases |items|
  {
    hide Amounts, GoodItem, PrintItem;
    if items == [] {
      assert lines + PrintItems(items) == lines && l.prefixes + EntriesOf(items) == l.prefixes;
    } else {
      var init, it := items[..|items| - 1], items[|items| - 1];
      AddPrefixes(lines, init, l);
      ItemsAreSolid(it);
      ItemReads(it);
      var l1 := l.(prefixes := l.prefixes + EntriesOf(init));
      AddLine(lines + PrintItems(init), PrintItem(it), l1, l1.(prefixes := l1.prefixes + [EntryOf(it)]));
      assert lines + PrintItems(items) == lines + PrintItems(init) + [PrintItem(it)];
      assert l.prefixes + EntriesOf(items) == l.prefixes + EntriesOf(init) + [EntryOf(it)];
    }
  }

  lemma {:induction false} AddNames(lines: seq<string>, items: seq<Item>, l: Progress)
    requires Amounts(lines, l) && l.mode == Names
    requires forall i :: 0 <= i < |items| ==> GoodItem(items[i]) && Split(items[i].rest).Ok?
    ensures Amounts(lines + PrintItems(items), l.(names := l.names + EntriesOf(items)))
    decreases |items|
  {
    hide Amounts, GoodItem, PrintItem, Split;
    if items == [] {
      assert lines + PrintItems(items) == lines && l.names + EntriesOf(items) == l.names;
    } else {
      var init, it := items[..|items| - 1], items[|items| - 1];
      AddNames(lines, init, l);
      ItemsAreSolid(it);
      ItemReads(it);
      var l1 := l.(names := l.names + EntriesOf(init));
      AddLine(lines + PrintItems(init), PrintItem(it), l1, l1.(names := l1.names + [EntryOf(it)]));
      assert lines + PrintItems(items) == lines + PrintItems(init) + [PrintItem(it)];
      assert l.names + EntriesOf(items) == l.names + EntriesOf(init) + [EntryOf(it)];
    }
  }

  lemma ItemReads(it: Item)
    requires GoodItem(it)
    ensures ParseLine(PrintItem(it)) == Some(EntryOf(it))
  {
    ItemIsRead(it);
  }

  lemma SourceLoads(s: Source)
    requires GoodSource(s)
    ensures Amounts(PrintSource(s), Progress(Names, EntriesOf(s.prefixes), EntriesOf(s.names)))
  {
    hide Amounts, GoodItem, Split;
    ItemsLoad(s);
  }

  /** A printed section amounts to its own entries. */
  lemma ItemsLoad(s: Source)
    requires s.prefixes != [] && (forall i :: 0 <= i < |s.prefixes| ==> GoodItem(s.prefixes[i]))
    requires forall i :: 0 <= i < |s.names| ==> GoodItem(s.names[i]) && Split(s.names[i].rest).Ok?
    ensures Amounts(PrintSource(s), Progress(Names, EntriesOf(s.prefixes), EntriesOf(s.names)))
  {
    hide Amounts, GoodItem, Split;
    SubHeadersAreSolid();
    HeadersAreSolid(s.kind);
    var header, prefixes := TypeHeader(s.kind), EntriesOf(s.prefixes);
    assert Amounts([], Progress(Idle, [], [])) by {
      NothingLoaded();
    }
    AddLine([], header, Progress(Idle, [], []), Progress(Idle, [], []));
    assert [] + [header] == [header];
    AddLine([header], PREFIX_HEADER, Progress(Idle, [], []), Progress(Prefixes, [], []));
    assert [header] + [PREFIX_HEADER] == [header, PREFIX_HEADER];
    AddPrefixes([header, PREFIX_HEADER], s.prefixes, Progress(Prefixes, [], []));
    assert [] + prefixes == prefixes && [] + EntriesOf(s.names) == EntriesOf(s.names);
    var lines := [header, PREFIX_HEADER] + PrintItems(s.prefixes);
    AddLine(lines, NAMES_HEADER, Progress(Prefixes, prefixes, []), Progress(Names, prefixes, []));
    AddNames(lines + [NAMES_HEADER], s.names, Progress(Names, prefixes, []));
  }

  lemma NothingLoaded()
    ensures Amounts([], Progress(Idle, [], []))
  {
  }

  // ---------- The table ----------

  /** The map holds for each key the rest of its last item, and nothing else. */
  ghost predicate Lists(items: seq<Item>, m: map<string, string>) {
    forall k, u :: ListsLast(items, k, u) <==> k in m && m[k] == u
  }

  ghost predicate ListsLast(items: seq<Item>, k: string, u: string) {
    exists i :: 0 <= i < |items| && items[i].key == k && items[i].rest == u &&
                forall j :: i < j < |items| ==> items[j].key != k
  }

  lemma ListsLastIsLast(items: seq<Item>, k: string, u: string)
    ensures ListsLast(items, k, u) <==>
              var i := LastOf(EntriesOf(items), k); i >= 0 && EntriesOf(items)[i].rest == u
  {
    var r := LastOf(EntriesOf(items), k);
    assert forall i :: 0 <= i < |items| ==> EntriesOf(items)[i] == EntryOf(items[i]);
    if r >= 0 {
      assert forall j :: r < j < |items| ==> EntriesOf(items)[j].key == items[j].key;
    }
  }

  lemma SourceSays(s: Source, table: Mapper)
    requires GoodSource(s) && Lists(s.prefixes, table.prefixes) && Lists(s.names, table.names)
    ensures var section := PrintSource(s);
            Acceptable(section, |section|) && Tells(section, table)
  {
    hide GoodItem, Split, PrintSource, LastOf, Entries, GoodLine, ListsLast, ModeAt;
    SourceLoads(s);
    var section := PrintSource(s);
    assert OneToOne(EntriesOf(s.names));
    forall k, u ensures LastSays(section, Prefixes, k, u) <==> ListsLast(s.prefixes, k, u) {
      ListsLastIsLast(s.prefixes, k, u);
    }
    forall k, u ensures LastSays(section, Names, k, u) <==> ListsLast(s.names, k, u) {
      ListsLastIsLast(s.names, k, u);
    }
  }

  // ---------- Which sections are refused ----------

  predicate AllOrdinary(lines: seq<string>) {
    forall i :: 0 <= i < |lines| ==> Ordinary(lines[i])
  }

  /** A section with any ordinary lines after its two sub-headers. */
  function RawSection(t: StateType, prefixes: seq<string>, names: seq<string>): seq<string> {
    [TypeHeader(t), "[namespace prefixes]"] + prefixes + ["[short names]"] + names
  }

  /** The lines are those of items with accepted paths, no short name or path twice. */
  ghost predicate WellWritten(prefixes: seq<string>, names: seq<string>) {
    exists p: seq<Item>, n: seq<Item> {:trigger PrintItems(p), PrintItems(n)} ::
      PrintItems(p) == prefixes && PrintItems(n) == names && GoodSource(Source(AgentState, p, n))
  }

  lemma {:induction false} ModesInSection(t: StateType, prefixes: seq<string>, names: seq<string>, k: nat)
    requires AllOrdinary(prefixes) && AllOrdinary(names)
    requires k <= |RawSection(t, prefixes, names)|
    ensures var lines, p := RawSection(t, prefixes, names), |prefixes|;
            ModeAt(lines, k) == if k < 2 then Idle else if k < 3 + p then Prefixes else Names
    decreases k
  {
    hide Ordinary, TypeHeader;
    if k > 0 {
      ModesInSection(t, prefixes, names, k - 1);
      SubHeadersAreSolid();
      HeadersAreSolid(t);
      var lines, p := RawSection(t, prefixes, names), |prefixes|;
      if k == 1 {
        assert lines[0] == TypeHeader(t);
      } else if 2 < k <= 2 + p {
        OrdinaryLines(prefixes[k - 3]);
        assert lines[k - 1] == prefixes[k - 3];
      } else if k > 3 + p {
        OrdinaryLines(names[k - 4 - p]);
        assert lines[k - 1] == names[k - 4 - p];
      }
    }
  }

  /** The items of lines that are all read. */
  lemma {:induction false} ItemsOfLines(lines: seq<string>) returns (items: seq<Item>)
    requires forall i :: 0 <= i < |lines| ==> Ordinary(lines[i]) && ParseLine(lines[i]).Some?
    ensures PrintItems(items) == lines && forall i :: 0 <= i < |items| ==> GoodItem(items[i])
    decreases |lines|
  {
    hide ParseLine, Ordinary, Splittable, PrintItem;
    if lines == [] {
      items := [];
    } else {
      var n := |lines| - 1;
      var init := ItemsOfLines(lines[..n]);
      var it := ReadIsItem(lines[n]);
      items := init + [it];
      assert forall i :: 0 <= i < n ==> PrintItems(init)[i] == lines[i];
    }
  }

  /** An acceptable section has lines that are all read, with accepted paths, and a prefix. */
  lemma AcceptedLines(t: StateType, prefixes: seq<string>, names: seq<string>)
    requires AllOrdinary(prefixes) && AllOrdinary(names)
    requires var lines := RawSection(t, prefixes, names); Acceptable(lines, |lines|)
    ensures prefixes != []
    ensures forall i :: 0 <= i < |prefixes| ==> ParseLine(prefixes[i]).Some?
    ensures forall i :: 0 <= i < |names| ==> ParseLine(names[i]).Some? && Split(ParseLine(names[i]).value.rest).Ok?
  {
    hide Ordinary, TypeHeader, ParseLine, Split, OneToOne;
    SubHeadersAreSolid();
    var lines, p := RawSection(t, prefixes, names), |prefixes|;
    forall i | 0 <= i < p ensures ParseLine(prefixes[i]).Some? {
      ModesInSection(t, prefixes, names, i + 2);
      OrdinaryLines(prefixes[i]);
      assert lines[i + 2] == prefixes[i] && GoodLine(lines, i + 2);
    }
    forall i | 0 <= i < |names| ensures ParseLine(names[i]).Some? && Split(ParseLine(names[i]).value.rest).Ok? {
      ModesInSection(t, prefixes, names, i + 3 + p);
      OrdinaryLines(names[i]);
      assert lines[i + 3 + p] == names[i] && GoodLine(lines, i + 3 + p);
    }
    assert lines[2 + p] == NAMES_HEADER && GoodLine(lines, 2 + p);
    if p == 0 {
      NoPrefixes(t, names);
    }
  }

  lemma NoPrefixes(t: StateType, names: seq<string>)
    ensures Entries(RawSection(t, [], names), 2, Prefixes) == []
  {
    hide TypeHeader, ParseLine;
    SubHeadersAreSolid();
    HeadersAreSolid(t);
    var lines := RawSection(t, [], names);
    assert lines[0] == TypeHeader(t) && lines[1] == PREFIX_HEADER;
    assert !IsEntry(lines, 0, Prefixes) && !IsEntry(lines, 1, Prefixes);
    assert Entries(lines, 0, Prefixes) == [] && Entries(lines, 1, Prefixes) == [];
  }

  /**
   A section of ordinary lines is accepted exactly when there is a prefix line, every line is a key, a
   gap and a rest, every path is one the splitter accepts, and no short name or path occurs twice.
   */
  lemma AcceptedIffWellWritten(t: StateType, prefixes: seq<string>, names: seq<string>)
    requires AllOrdinary(prefixes) && AllOrdinary(names)
    ensures var lines := RawSection(t, prefixes, names);
            Acceptable(lines, |lines|) <==> WellWritten(prefixes, names)
  {
    hide GoodItem, Ordinary, Split, ParseLine, TypeHeader, GoodLine, Entries, ModeAt;
    var lines := RawSection(t, prefixes, names);
    if Acceptable(lines, |lines|) {
      AcceptedLines(t, prefixes, names);
      var p := ItemsOfLines(prefixes);
      var n := ItemsOfLines(names);
      forall i | 0 <= i < |n| ensures Split(n[i].rest).Ok? {
        ItemReads(n[i]);
        assert PrintItems(n)[i] == names[i];
      }
      AcceptedOnce(t, p, n);
      assert GoodSource(Source(AgentState, p, n));
    }
    if p: seq<Item>, n: seq<Item> :|
        PrintItems(p) == prefixes && PrintItems(n) == names && GoodSource(Source(AgentState, p, n)) {
      SourceLoads(Source(t, p, n));
      assert OneToOne(EntriesOf(n));
    }
  }

  /** The items of an acceptable section have no short name or path twice. */
  lemma AcceptedOnce(t: StateType, p: seq<Item>, n: seq<Item>)
    requires p != [] && (forall i :: 0 <= i < |p| ==> GoodItem(p[i]))
    requires forall i :: 0 <= i < |n| ==> GoodItem(n[i]) && Split(n[i].rest).Ok?
    requires var lines := RawSection(t, PrintItems(p), PrintItems(n)); Acceptable(lines, |lines|)
    ensures forall i, j :: 0 <= i < j < |n| ==> n[i].key != n[j].key && n[i].rest != n[j].rest
  {
    hide GoodItem, Split, TypeHeader, GoodLine, ModeAt, Entries;
    ItemsLoad(Source(t, p, n));
    var entries := EntriesOf(n);
    assert forall i :: 0 <= i < |n| ==> entries[i] == EntryOf(n[i]);
  }

  // ---------- Sections of a printed text ----------

  lemma {:induction false} PrintedJoin(a: seq<Source>, b: seq<Source>)
    ensures PrintSources(a + b) == PrintSources(a) + PrintSources(b)
    decreases |a|
  {
    hide PrintSource;
    if a == [] {
      assert a + b == b;
    } else {
      assert (a + b)[0] == a[0] && (a + b)[1..] == a[1..] + b;
      PrintedJoin(a[1..], b);
    }
  }

  /** A printed section: its header, and then lines that are headers of no type. */
  lemma SourceShape(s: Source)
    requires GoodSource(s)
    ensures var section := PrintSource(s);
            && section != [] && section[0] == Header(s.kind)
            && forall i :: 1 <= i < |section| ==> !IsHeader(section[i])
  {
    hide GoodItem, Split, IsHeader, Header;
    TypeHeaderIsHeader(s.kind);
    SubHeadersAreSolid();
    var section, p := PrintSource(s), |s.prefixes|;
    forall i | 1 <= i < |section| ensures !IsHeader(section[i]) {
      if 2 <= i < 2 + p {
        ItemsAreSolid(s.prefixes[i - 2]);
        assert section[i] == PrintItem(s.prefixes[i - 2]);
      } else if 3 + p <= i {
        ItemsAreSolid(s.names[i - 3 - p]);
        assert section[i] == PrintItem(s.names[i - 3 - p]);
      }
    }
  }

  lemma {:induction false} OtherHeaders(sources: seq<Source>, t: StateType)
    requires forall i :: 0 <= i < |sources| ==> GoodSource(sources[i]) && sources[i].kind != t
    ensures Header(t) !in PrintSources(sources)
    ensures sources != [] ==> PrintSources(sources) != [] && IsHeader(PrintSources(sources)[0])
    decreases |sources|
  {
    hide GoodSource, PrintSource, Header;
    if sources != [] {
      OtherHeaders(sources[1..], t);
      SourceShape(sources[0]);
      HeadersDiffer(sources[0].kind, t);
      assert IsHeader(PrintSource(sources[0])[0]);
    }
  }

  lemma SectionIsFound(before: seq<string>, section: seq<string>, after: seq<string>, t: StateType)
    requires section != [] && section[0] == Header(t) && forall i :: 1 <= i < |section| ==> !IsHeader(section[i])
    requires Header(t) !in after && (after != [] ==> IsHeader(after[0]))
    ensures IsSection(before + section + after, t, section)
  {
    hide Header;
    var text, h, n := before + section + after, |before|, |before| + |section|;
    assert text[h + 1..] == section[1..] + after;
    assert IsHeader(Header(t));
    assert Header(t) !in section[1..];
    assert Spans(text, t, h, n) && text[h..n] == section;
  }

  /** The text has a section for the type, of which the table is a listing; a later section replaces an earlier one. */
  ghost predicate Describes(sources: seq<Source>, t: StateType, table: Mapper) {
    exists i :: 0 <= i < |sources| && IsLastOf(sources, t, i) && ListedBy(sources[i], table)
  }

  ghost predicate IsLastOf(sources: seq<Source>, t: StateType, i: nat) {
    i < |sources| && sources[i].kind == t && forall j :: i < j < |sources| ==> sources[j].kind != t
  }

  ghost predicate ListedBy(s: Source, table: Mapper) {
    Lists(s.prefixes, table.prefixes) && Lists(s.names, table.names)
  }

  /** A text of sections, cut around one of them. */
  lemma PrintedAround(sources: seq<Source>, i: nat)
    requires i < |sources|
    ensures PrintSources(sources)
         == PrintSources(sources[..i]) + PrintSource(sources[i]) + PrintSources(sources[i + 1..])
  {
    hide PrintSource, PrintSources;
    var before, s, after := sources[..i], sources[i], sources[i + 1..];
    CutAround(sources, i);
    PrintedJoin(before, [s] + after);
    PrintedCons(s, after);
    Associates(PrintSources(before), PrintSource(s), PrintSources(after));
  }

  lemma CutAround(sources: seq<Source>, i: nat)
    requires i < |sources|
    ensures sources == sources[..i] + ([sources[i]] + sources[i + 1..])
  {
  }

  lemma PrintedCons(s: Source, after: seq<Source>)
    ensures PrintSources([s] + after) == PrintSource(s) + PrintSources(after)
  {
    hide PrintSource;
    assert ([s] + after)[1..] == after;
  }

  lemma Associates(a: seq<string>, b: seq<string>, c: seq<string>)
    ensures a + (b + c) == a + b + c
  {
  }

  lemma PrintedSection(sources: seq<Source>, t: StateType, i: nat)
    requires (forall i :: 0 <= i < |sources| ==> GoodSource(sources[i])) && IsLastOf(sources, t, i)
    ensures IsSection(PrintSources(sources), t, PrintSource(sources[i]))
  {
    hide GoodSource, PrintSource, PrintSources, IsSection, Header, IsHeader;
    PrintedAround(sources, i);
    SourceShape(sources[i]);
    OtherHeaders(sources[i + 1..], t);
    NoSources(sources[i + 1..]);
    SectionIsFound(PrintSources(sources[..i]), PrintSource(sources[i]), PrintSources(sources[i + 1..]), t);
  }

  lemma NoSources(sources: seq<Source>)
    ensures sources == [] ==> PrintSources(sources) == []
  {
  }

  lemma PrintedConfigures(sources: seq<Source>, t: StateType, table: Mapper)
    requires (forall i :: 0 <= i < |sources| ==> GoodSource(sources[i])) && Describes(sources, t, table)
    ensures Configures(PrintSources(sources), t, table)
  {
    hide GoodSource, PrintSource, Lists, IsSection, Acceptable, Tells, PrintSources;
    var i :| 0 <= i < |sources| && IsLastOf(sources, t, i) && ListedBy(sources[i], table);
    PrintedSection(sources, t, i);
    SourceSays(sources[i], table);
  }

  lemma {:induction false} PrintedIsSolid(sources: seq<Source>, k: nat)
    requires (forall i :: 0 <= i < |sources| ==> GoodSource(sources[i])) && k < |PrintSources(sources)|
    ensures Solid(PrintSources(sources)[k])
    decreases |sources|
  {
    hide GoodSource, PrintSource, Solid;
    var s, rest := sources[0], sources[1..];
    if k < |PrintSource(s)| {
      SourceIsSolid(s, k);
    } else {
      PrintedIsSolid(rest, k - |PrintSource(s)|);
    }
  }

  lemma SourceIsSolid(s: Source, k: nat)
    requires GoodSource(s) && k < |PrintSource(s)|
    ensures Solid(PrintSource(s)[k])
  {
    hide GoodItem, Split, Solid;
    HeadersAreSolid(s.kind);
    SubHeadersAreSolid();
    var p := |s.prefixes|;
    if 2 <= k < 2 + p {
      ItemsAreSolid(s.prefixes[k - 2]);
    } else if 3 + p <= k {
      ItemsAreSolid(s.names[k - 3 - p]);
    }
  }

  /** A text of these sections, with any comments, empty lines and blanks around its lines. */
  ghost predicate IsTextOf(lines: seq<Line>, sources: seq<Source>) {
    && (forall i :: 0 <= i < |lines| ==> GoodLayout(lines[i]))
    && (forall i :: 0 <= i < |sources| ==> GoodSource(sources[i]))
    && Contents(lines) == PrintSources(sources)
  }

  /**
   Loading undoes printing.  For every text of well-formed sections, with any comments, empty lines and
   blanks, that describes a table for each type, exactly those tables are loaded.
   */
  method LoadPrinted(lines: seq<Line>, ghost sources: seq<Source>, ghost tables: map<StateType, Mapper>)
      returns (r: Configuration)
    requires IsTextOf(lines, sources)
    requires forall t :: t in tables && Describes(sources, t, tables[t])
    ensures r == Configured(tables)
  {
    hide Kept, Configures, Describes, GoodSource, GoodLayout, Solid;
    r := InfosByType(PrintText(lines));
    forall i | 0 <= i < |Contents(lines)| ensures Solid(Contents(lines)[i]) {
      PrintedIsSolid(sources, i);
    }
    KeptIsContent(lines);
    forall t ensures HasTable(Kept(PrintText(lines)), t) && Configures(Kept(PrintText(lines)), t, tables[t]) {
      PrintedConfigures(sources, t, tables[t]);
    }
    assert r.Configured?;
    forall t ensures r.tables[t] == tables[t] {
      ConfiguresOnce(Kept(PrintText(lines)), t, r.tables[t], tables[t]);
    }
    assert r.tables == tables;
  }
}
