/** Loading the whole configuration: one table for each kind of state, from its section. */
module StateSections {
  import opened PathSplitter
  import opened StateConfig
  import opened StateTable
  import opened StateDocument
  import opened BuildErrors

  datatype ConfigError = NoSection(kind: StateType) | BadSection(kind: StateType, error: LoadError)

  datatype Configuration =
    | Configured(tables: map<StateType, Mapper>) | Refused(error: ConfigError) | NeverConfigures

  const TYPES := [AgentState, DialogState, UserState, ContextState, SystemState]

  /** The section's last entry of the given kind for the key has this rest. */
  ghost predicate LastSays(section: seq<string>, mode: Mode, k: string, u: string) {
    var entries := Entries(section, |section|, mode);
    var i := LastOf(entries, k);
    i >= 0 && entries[i].rest == u
  }

  /** The map holds for each key what the section's last entry for it says, and nothing else. */
  ghost predicate Says(section: seq<string>, mode: Mode, m: map<string, string>) {
    forall k, u :: LastSays(section, mode, k, u) <==> k in m && m[k] == u
  }

  /** The text has an acceptable section for the type, and the table is what its entries say. */
  ghost predicate Configures(text: seq<string>, t: StateType, table: Mapper) {
    exists section :: IsSection(text, t, section) && Acceptable(section, |section|) && Tells(section, table)
  }

  ghost predicate Tells(section: seq<string>, table: Mapper) {
    Says(section, Prefixes, table.prefixes) && Says(section, Names, table.names)
  }

  lemma BindSays(section: seq<string>, mode: Mode)
    ensures Says(section, mode, Bind(Entries(section, |section|, mode)))
  {
    hide Entries, Bind;
    var entries := Entries(section, |section|, mode);
    forall k, u ensures LastSays(section, mode, k, u) <==> k in Bind(entries) && Bind(entries)[k] == u {
      BindIsLast(entries, k);
    }
  }

  lemma SaysOnce(section: seq<string>, mode: Mode, m: map<string, string>, m': map<string, string>)
    requires Says(section, mode, m) && Says(section, mode, m')
    ensures m == m'
  {
    hide LastSays;
    forall k ensures k in m <==> k in m'
             ensures k in m && k in m' ==> m[k] == m'[k]
    {
      if k in m {
        assert LastSays(section, mode, k, m[k]);
      }
      if k in m' {
        assert LastSays(section, mode, k, m'[k]);
      }
    }
  }

  /** A type has at most one section. */
  lemma SectionIsUnique(text: seq<string>, t: StateType, s: seq<string>, s': seq<string>)
    requires IsSection(text, t, s) && IsSection(text, t, s')
    ensures s == s'
  {
    hide IsHeader, Header;
    var h: nat, n: nat :| Spans(text, t, h, n) && s == text[h..n];
    var h': nat, n': nat :| Spans(text, t, h', n') && s' == text[h'..n'];
    LastHeaderOnce(text, t, h, n, h');
    LastHeaderOnce(text, t, h', n', h);
  }

  lemma LastHeaderOnce(text: seq<string>, t: StateType, h: nat, n: nat, h': nat)
    requires Spans(text, t, h, n) && h' < |text| && text[h'] == Header(t)
    ensures h' <= h
  {
    hide IsHeader, Header;
    if h < h' {
      LaterHeader(text, h, h');
    }
  }

  lemma LaterHeader(text: seq<string>, h: nat, h': nat)
    requires h < h' < |text|
    ensures text[h'] in text[h + 1..]
  {
    assert text[h + 1..][h' - h - 1] == text[h'];
  }

  ghost predicate HasTable(text: seq<string>, t: StateType) {
    exists table :: Configures(text, t, table)
  }

  lemma NoneConfigured(text: seq<string>, t: StateType, sections: map<StateType, seq<string>>)
    requires Sectioned(text, sections)
    requires t in sections ==> !Acceptable(sections[t], |sections[t]|)
    ensures !HasTable(text, t)
  {
    hide Acceptable, Spans, Tells;
    forall table ensures !Configures(text, t, table) {
      if section :| IsSection(text, t, section) && Acceptable(section, |section|) && Tells(section, table) {
        SectionHasHeader(text, t, section);
        SectionIsUnique(text, t, section, sections[t]);
      }
    }
  }

  lemma SectionHasHeader(text: seq<string>, t: StateType, section: seq<string>)
    requires IsSection(text, t, section)
    ensures HasHeader(text, t) && section != []
  {
    var h: nat, n: nat :| Spans(text, t, h, n) && section == text[h..n];
  }

  /** The type is the first, in the order of loading, without a section that loads. */
  ghost predicate FirstToFail(text: seq<string>, t: StateType) {
    !HasTable(text, t) &&
    match t
    case AgentState => true
    case DialogState => HasTable(text, AgentState)
    case UserState => HasTable(text, AgentState) && HasTable(text, DialogState)
    case ContextState => HasTable(text, AgentState) && HasTable(text, DialogState) && HasTable(text, UserState)
    case SystemState =>
      && HasTable(text, AgentState) && HasTable(text, DialogState) && HasTable(text, UserState)
      && HasTable(text, ContextState)
  }

  lemma FirstFails(text: seq<string>, i: nat)
    requires i < |TYPES| && !HasTable(text, TYPES[i]) && forall j :: 0 <= j < i ==> HasTable(text, TYPES[j])
    ensures FirstToFail(text, TYPES[i])
  {
    hide HasTable;
    assert i > 0 ==> HasTable(text, TYPES[0]);
    assert i > 1 ==> HasTable(text, TYPES[1]);
    assert i > 2 ==> HasTable(text, TYPES[2]);
    assert i > 3 ==> HasTable(text, TYPES[3]);
  }

  /** A refusal blames the first type to fail: it has no section, or what loading says of its section. */
  ghost predicate Blamed(text: seq<string>, r: Configuration) {
    match r
    case Configured(_) => false
    case Refused(NoSection(t)) => FirstToFail(text, t) && !HasHeader(text, t)
    case Refused(BadSection(t, e)) => FirstToFail(text, t) && SectionBlames(text, t, Rejected(e))
    case NeverConfigures => exists t :: FirstToFail(text, t) && SectionBlames(text, t, NeverLoads)
  }

  /** The type has a section, some line of which is the first that cannot be loaded. */
  ghost predicate SectionBlames(text: seq<string>, t: StateType, loading: Loading) {
    exists section, i :: IsSection(text, t, section) && Blames(section, i, loading)
  }

  /**
   Loading succeeds exactly when every type has a section that loads; each table is then the one
   its section says, and every path in it is one the splitter accepts.  Otherwise the first type to
   fail is blamed.
   */
  method InfosByType(lines: seq<string>) returns (r: Configuration)
    ensures r.Configured? <==> forall t :: HasTable(Kept(lines), t)
    ensures r.Configured? ==>
              forall t :: t in r.tables && Configures(Kept(lines), t, r.tables[t]) && Splits(r.tables[t])
    ensures !r.Configured? ==> Blamed(Kept(lines), r)
  {
    hide Acceptable, IsSection, Configures, Splits, Kept, Entries, Bind, Blames;
    var sections := SplitSections(lines);
    ghost var text := Kept(lines);
    var tables: map<StateType, Mapper> := map[];
    for i := 0 to |TYPES|
      invariant forall j :: 0 <= j < i ==>
                  TYPES[j] in tables && Configures(text, TYPES[j], tables[TYPES[j]]) && Splits(tables[TYPES[j]])
      invariant forall j :: 0 <= j < i ==> HasTable(text, TYPES[j])
    {
      var t := TYPES[i];
      if t !in sections || sections[t] == [] {
        if t in sections {
          SectionHasHeader(text, t, sections[t]);
        }
        NoneConfigured(text, t, sections);
        FirstFails(text, i);
        return Refused(NoSection(t));
      }
      var loading := LoadTable(sections[t]);
      match loading {
        case Loaded(prefixes, names) =>
          Sound(text, t, sections[t], Mapper(prefixes, names));
          tables := tables[t := Mapper(prefixes, names)];
        case Rejected(e) =>
          NoneConfigured(text, t, sections);
          FirstFails(text, i);
          assert SectionBlames(text, t, loading);
          return Refused(BadSection(t, e));
        case NeverLoads =>
          NoneConfigured(text, t, sections);
          FirstFails(text, i);
          assert SectionBlames(text, t, loading);
          return NeverConfigures;
      }
    }
    forall t ensures t in tables && Configures(text, t, tables[t]) && Splits(tables[t]) && HasTable(text, t) {
      AllTypes(t);
    }
    return Configured(tables);
  }

  lemma AllTypes(t: StateType)
    ensures t in TYPES
  {
    assert TYPES[0] == AgentState && TYPES[1] == DialogState && TYPES[2] == UserState
        && TYPES[3] == ContextState && TYPES[4] == SystemState;
  }

  lemma Sound(text: seq<string>, t: StateType, section: seq<string>, table: Mapper)
    requires IsSection(text, t, section) && Acceptable(section, |section|)
    requires table.prefixes == Bind(Entries(section, |section|, Prefixes))
    requires table.names == Bind(Entries(section, |section|, Names))
    ensures Configures(text, t, table) && Splits(table)
  {
    hide Acceptable, IsSection, Split, Bind, Entries, Injective, Says;
    TableSound(section);
    BindSays(section, Prefixes);
    BindSays(section, Names);
  }

  /** The text determines the table of each type. */
  lemma ConfiguresOnce(text: seq<string>, t: StateType, table: Mapper, table': Mapper)
    requires Configures(text, t, table) && Configures(text, t, table')
    ensures table == table'
  {
    hide IsSection, Acceptable, Says;
    var s :| IsSection(text, t, s) && Acceptable(s, |s|) && Tells(s, table);
    var s' :| IsSection(text, t, s') && Acceptable(s', |s'|) && Tells(s', table');
    SectionIsUnique(text, t, s, s');
    SaysOnce(s, Prefixes, table.prefixes, table'.prefixes);
    SaysOnce(s, Names, table.names, table'.names);
  }
}
