/** Loading one configuration section: namespace prefixes, and the short-name table of paths. */
module StateTable {
  import opened Prelude
  import opened PathSplitter

  const PREFIX_HEADER := "[namespace prefixes]"
  const NAMES_HEADER := "[short names]"

  // ---------- One line: a key, delimiters, and the rest ----------

  datatype Entry = Entry(key: string, rest: string)

  predicate IsDelimiter(c: char) {
    c in "\t =:"
  }

  /** The first position from `from` on whose being a delimiter is `wanted`, or the length. */
  function Seek(line: string, from: nat, wanted: bool): (r: nat)
    requires from <= |line|
    ensures from <= r <= |line|
    ensures r < |line| ==> IsDelimiter(line[r]) == wanted
    ensures forall i :: from <= i < r ==> IsDelimiter(line[i]) != wanted
    decreases |line| - from
  {
    if from == |line| || IsDelimiter(line[from]) == wanted then from
    else Seek(line, from + 1, wanted)
  }

  function ParseLine(line: string): Option<Entry> {
    var sepStart := Seek(line, 0, true);
    var secondStart := Seek(line, sepStart, false);
    if sepStart == |line| || secondStart == |line| then None
    else Some(Entry(line[..sepStart], line[secondStart..]))
  }

  ghost predicate Consists(line: string, key: string, gap: string, rest: string) {
    && line == key + gap + rest && gap != "" && rest != "" && !IsDelimiter(rest[0])
    && (forall i :: 0 <= i < |key| ==> !IsDelimiter(key[i]))
    && (forall i :: 0 <= i < |gap| ==> IsDelimiter(gap[i]))
  }

  /** A line has one reading: a key, a gap of delimiters, and a rest that starts after the gap. */
  lemma ParseLineReads(line: string, key: string, rest: string)
    ensures ParseLine(line) == Some(Entry(key, rest)) <==> exists gap :: Consists(line, key, gap, rest)
  {
    hide Seek, IsDelimiter;
    if ParseLine(line) == Some(Entry(key, rest)) {
      var gap := ParsedConsists(line, key, rest);
    }
    if gap :| Consists(line, key, gap, rest) {
      SeeksMeet(line, key, gap, rest);
      assert line[..|key|] == key && line[|key| + |gap|..] == rest;
    }
  }

  lemma ParsedConsists(line: string, key: string, rest: string) returns (gap: string)
    requires ParseLine(line) == Some(Entry(key, rest))
    ensures Consists(line, key, gap, rest)
  {
    hide IsDelimiter;
    var sep := Seek(line, 0, true);
    var second := Seek(line, sep, false);
    gap := line[sep..second];
    Pieces(line, sep, second);
    assert forall i :: 0 <= i < |gap| ==> gap[i] == line[sep + i];
  }

  lemma Pieces(line: string, i: nat, j: nat)
    requires i <= j <= |line|
    ensures line == line[..i] + line[i..j] + line[j..]
  {
  }

  lemma SeeksMeet(line: string, key: string, gap: string, rest: string)
    requires Consists(line, key, gap, rest)
    ensures Seek(line, 0, true) == |key| && Seek(line, |key|, false) == |key| + |gap|
  {
    hide IsDelimiter;
    assert line[|key|] == gap[0] && line[|key| + |gap|] == rest[0];
    assert forall i :: 0 <= i < |key| ==> line[i] == key[i];
    assert forall i :: |key| <= i < |key| + |gap| ==> line[i] == gap[i - |key|];
  }

  // ---------- Which lines are entries of which kind ----------

  datatype Mode = Idle | Prefixes | Names

  /** The mode before line `i`: set by the last of the two sub-headers seen. */
  function ModeAt(lines: seq<string>, i: nat): Mode
    requires i <= |lines|
  {
    if i == 0 then Idle
    else if lines[i - 1] == PREFIX_HEADER then Prefixes
    else if lines[i - 1] == NAMES_HEADER then Names
    else ModeAt(lines, i - 1)
  }

  predicate IsEntry(lines: seq<string>, i: nat, mode: Mode) {
    i < |lines| && lines[i] != PREFIX_HEADER && lines[i] != NAMES_HEADER && ModeAt(lines, i) == mode
  }

  /** The entries of one kind among the first `n` lines, as key and rest. */
  function Entries(lines: seq<string>, n: nat, mode: Mode): seq<Entry>
    requires n <= |lines|
  {
    if n == 0 then []
    else if IsEntry(lines, n - 1, mode) && ParseLine(lines[n - 1]).Some? then
      Entries(lines, n - 1, mode) + [ParseLine(lines[n - 1]).value]
    else
      Entries(lines, n - 1, mode)
  }

  predicate GoodLine(lines: seq<string>, i: nat)
    requires i < |lines|
  {
    && (IsEntry(lines, i, Prefixes) || IsEntry(lines, i, Names) ==> ParseLine(lines[i]).Some?)
    && (IsEntry(lines, i, Names) ==> Split(ParseLine(lines[i]).value.rest).Ok?)
    && (lines[i] == NAMES_HEADER ==> Entries(lines, i, Prefixes) != [])
  }

  /** No key and no rest occurs twice. */
  predicate OneToOne(entries: seq<Entry>) {
    forall i, j :: 0 <= i < j < |entries| ==>
      entries[i].key != entries[j].key && entries[i].rest != entries[j].rest
  }

  /** The sections that load: well-formed lines, prefixes before names, a one-to-one table. */
  predicate Acceptable(lines: seq<string>, n: nat)
    requires n <= |lines|
  {
    (forall i: nat :: i < n ==> GoodLine(lines, i)) && OneToOne(Entries(lines, n, Names))
  }

  // ---------- The loaded table ----------

  /** The map that entries make when each is stored in turn: a later one replaces an earlier one. */
  function Bind(entries: seq<Entry>): map<string, string> {
    if entries == [] then map[]
    else
      var last := entries[|entries| - 1];
      Bind(entries[..|entries| - 1])[last.key := last.rest]
  }

  datatype LoadError =
    | NoPrefixesYet | BadPrefixLine | BadNameLine | BadPath(reason: SplitError) | NameTwice | PathTwice

  datatype Loading =
    | Loaded(prefixes: map<string, string>, names: map<string, string>)
    | Rejected(error: LoadError)
    | NeverLoads

  /** The last entry with a key, or -1. */
  function LastOf(entries: seq<Entry>, k: string): (r: int)
    ensures -1 <= r < |entries| && (r >= 0 ==> entries[r].key == k)
    ensures forall i :: r < i < |entries| ==> entries[i].key != k
  {
    if entries == [] then -1
    else if entries[|entries| - 1].key == k then |entries| - 1
    else LastOf(entries[..|entries| - 1], k)
  }

  /** Looking a key up gives what the last entry with that key says. */
  lemma {:induction false} BindIsLast(entries: seq<Entry>, k: string)
    ensures k in Bind(entries) <==> LastOf(entries, k) >= 0
    ensures k in Bind(entries) ==> Bind(entries)[k] == entries[LastOf(entries, k)].rest
  {
    if entries != [] {
      BindIsLast(entries[..|entries| - 1], k);
    }
  }

  lemma OneMore(entries: seq<Entry>, e: Entry)
    requires OneToOne(entries)
    ensures OneToOne(entries + [e]) <==>
              forall i :: 0 <= i < |entries| ==> entries[i].key != e.key && entries[i].rest != e.rest
  {
    var more := entries + [e];
    assert more[|entries|] == e;
    assert forall i :: 0 <= i < |entries| ==> more[i] == entries[i];
  }

  /** The reverse map the loader keeps to find a path expression given twice. */
  ghost predicate Reverses(reverse: map<string, string>, entries: seq<Entry>) {
    forall e :: e in reverse <==> exists i :: 0 <= i < |entries| && entries[i].rest == e
  }

  lemma ReverseGrows(reverse: map<string, string>, entries: seq<Entry>, e: Entry)
    requires Reverses(reverse, entries)
    ensures Reverses(reverse[e.rest := e.key], entries + [e])
  {
    var more := entries + [e];
    assert more[|entries|] == e;
    assert forall i :: 0 <= i < |entries| ==> more[i] == entries[i];
    forall x | x in reverse ensures exists i :: 0 <= i < |more| && more[i].rest == x {
      var i :| 0 <= i < |entries| && entries[i].rest == x;
      assert more[i].rest == x;
    }
  }

  /** A stored entry clashes with none before it, by the two maps' lookups. */
  lemma ClashFree(names: map<string, string>, reverse: map<string, string>, entries: seq<Entry>, e: Entry)
    requires OneToOne(entries) && names == Bind(entries) && Reverses(reverse, entries)
    ensures OneToOne(entries + [e]) <==> e.key !in names && e.rest !in reverse
  {
    BindIsLast(entries, e.key);
    OneMore(entries, e);
  }

  lemma Unacceptable(lines: seq<string>, n: nat)
    requires n <= |lines| && !Acceptable(lines, n)
    ensures !Acceptable(lines, |lines|)
  {
    if OneToOne(Entries(lines, |lines|, Names)) {
      EntriesPrefix(lines, n, |lines|, Names);
    }
  }

  lemma {:induction false} EntriesPrefix(lines: seq<string>, m: nat, n: nat, mode: Mode)
    requires m <= n <= |lines|
    ensures |Entries(lines, m, mode)| <= |Entries(lines, n, mode)|
    ensures Entries(lines, m, mode) == Entries(lines, n, mode)[..|Entries(lines, m, mode)|]
    decreases n
  {
    if m < n {
      EntriesPrefix(lines, m, n - 1, mode);
    }
  }

  /** What is wrong with line `i`, the lines before it being acceptable. */
  ghost predicate Blames(lines: seq<string>, i: nat, r: Loading) {
    && i < |lines| && Acceptable(lines, i) && !Acceptable(lines, i + 1)
    && match r
       case Loaded(_, _) => false
       case NeverLoads =>
         IsEntry(lines, i, Names) && ParseLine(lines[i]).Some? && Split(ParseLine(lines[i]).value.rest).Hangs?
       case Rejected(e) => BlamesFor(lines, i, e)
  }

  ghost predicate BlamesFor(lines: seq<string>, i: nat, e: LoadError)
    requires i < |lines|
  {
    match e
    case NoPrefixesYet => lines[i] == NAMES_HEADER
    case BadPrefixLine => IsEntry(lines, i, Prefixes)
    case BadNameLine => IsEntry(lines, i, Names) && ParseLine(lines[i]).None?
    case BadPath(reason) =>
      IsEntry(lines, i, Names) && ParseLine(lines[i]).Some? && Split(ParseLine(lines[i]).value.rest) == Err(reason)
    case NameTwice =>
      IsEntry(lines, i, Names) && ParseLine(lines[i]).Some? &&
      ParseLine(lines[i]).value.key in Bind(Entries(lines, i, Names))
    case PathTwice =>
      IsEntry(lines, i, Names) && ParseLine(lines[i]).Some? && Split(ParseLine(lines[i]).value.rest).Ok? &&
      ParseLine(lines[i]).value.key !in Bind(Entries(lines, i, Names))
  }

  /**
   Reads a section line by line, with two mode flags and three maps.  It loads exactly the
   acceptable sections, what it loads is what their entries say, and a refusal blames the first
   line that is not acceptable.
   */
  method LoadTable(lines: seq<string>) returns (r: Loading)
    ensures r.Loaded? <==> Acceptable(lines, |lines|)
    ensures r.Loaded? ==> r.prefixes == Bind(Entries(lines, |lines|, Prefixes))
    ensures r.Loaded? ==> r.names == Bind(Entries(lines, |lines|, Names))
    ensures !r.Loaded? ==> exists i :: Blames(lines, i, r)
  {
    hide Split, ParseLine, OneToOne, Bind, Reverses;
    var namespacePrefixes: map<string, string> := map[];
    var shortNames: map<string, string> := map[];
    var expr2shortname: map<string, string> := map[];
    var readNamespacePrefixes, readShortNames := false, false;
    NothingClashes();
    for i := 0 to |lines|
      invariant ModeAt(lines, i)
             == if readNamespacePrefixes then Prefixes else if readShortNames then Names else Idle
      invariant Acceptable(lines, i)
      invariant namespacePrefixes == Bind(Entries(lines, i, Prefixes))
      invariant shortNames == Bind(Entries(lines, i, Names))
      invariant Reverses(expr2shortname, Entries(lines, i, Names))
    {
      var line := lines[i];
      if line == PREFIX_HEADER {
        readNamespacePrefixes := true;
      } else if line == NAMES_HEADER {
        readShortNames, readNamespacePrefixes := true, false;
        BindEmpty(Entries(lines, i, Prefixes));
        if namespacePrefixes == map[] {
          assert !GoodLine(lines, i);
          Unacceptable(lines, i + 1);
          r := Rejected(NoPrefixesYet);
          assert Blames(lines, i, r);
          return;
        }
      } else if readNamespacePrefixes {
        var entry := ParseLine(line);
        if entry.None? {
          assert !GoodLine(lines, i);
          Unacceptable(lines, i + 1);
          r := Rejected(BadPrefixLine);
          assert Blames(lines, i, r);
          return;
        }
        BindMore(Entries(lines, i, Prefixes), entry.value);
        namespacePrefixes := namespacePrefixes[entry.value.key := entry.value.rest];
      } else if readShortNames {
        var entry := ParseLine(line);
        if entry.None? {
          assert !GoodLine(lines, i);
          Unacceptable(lines, i + 1);
          r := Rejected(BadNameLine);
          assert Blames(lines, i, r);
          return;
        }
        var shortName, xpathExpr := entry.value.key, entry.value.rest;
        var parts := SplitXPathIntoParts(xpathExpr);
        if !parts.Ok? {
          assert !GoodLine(lines, i);
          Unacceptable(lines, i + 1);
          r := if parts.Hangs? then NeverLoads else Rejected(BadPath(parts.error));
          assert Blames(lines, i, r);
          return;
        }
        ClashFree(shortNames, expr2shortname, Entries(lines, i, Names), entry.value);
        if shortName in shortNames {
          Unacceptable(lines, i + 1);
          r := Rejected(NameTwice);
          assert Blames(lines, i, r);
          return;
        }
        if xpathExpr in expr2shortname {
          Unacceptable(lines, i + 1);
          r := Rejected(PathTwice);
          assert Blames(lines, i, r);
          return;
        }
        BindMore(Entries(lines, i, Names), entry.value);
        ReverseGrows(expr2shortname, Entries(lines, i, Names), entry.value);
        shortNames := shortNames[shortName := xpathExpr];
        expr2shortname := expr2shortname[xpathExpr := shortName];
      }
    }
    return Loaded(namespacePrefixes, shortNames);
  }

  lemma NothingClashes()
    ensures OneToOne([]) && Bind([]) == map[] && Reverses(map[], [])
  {
  }

  lemma BindMore(entries: seq<Entry>, e: Entry)
    ensures Bind(entries + [e]) == Bind(entries)[e.key := e.rest]
  {
    assert (entries + [e])[..|entries|] == entries;
  }

  lemma BindEmpty(entries: seq<Entry>)
    ensures Bind(entries) == map[] <==> entries == []
  {
    if entries != [] {
      assert entries[|entries| - 1].key in Bind(entries);
    }
  }

  lemma {:induction false} EntriesAreGood(lines: seq<string>, n: nat, e: Entry)
    requires n <= |lines| && (forall i: nat :: i < n ==> GoodLine(lines, i))
    requires e in Entries(lines, n, Names)
    ensures Split(e.rest).Ok?
    decreases n
  {
    hide Split, ParseLine;
    if e in Entries(lines, n - 1, Names) {
      EntriesAreGood(lines, n - 1, e);
    } else {
      assert GoodLine(lines, n - 1);
    }
  }

  lemma BindOneToOne(entries: seq<Entry>)
    requires OneToOne(entries)
    ensures Injective(Bind(entries))
    ensures forall e :: e in entries ==> e.key in Bind(entries) && Bind(entries)[e.key] == e.rest
    ensures forall k :: k in Bind(entries) ==> Entry(k, Bind(entries)[k]) in entries
  {
    hide Bind;
    forall k | k in Bind(entries) ensures Entry(k, Bind(entries)[k]) in entries {
      BindIsLast(entries, k);
      assert entries[LastOf(entries, k)] == Entry(k, Bind(entries)[k]);
    }
    forall e | e in entries ensures e.key in Bind(entries) && Bind(entries)[e.key] == e.rest {
      BindIsLast(entries, e.key);
      var i :| 0 <= i < |entries| && entries[i] == e;
      assert i == LastOf(entries, e.key);
    }
  }

  /** Different keys have different values. */
  ghost predicate Injective(m: map<string, string>) {
    forall k, k' :: k in m && k' in m && m[k] == m[k'] ==> k == k'
  }

  /**
   The loaded table is sound: different short names have different path expressions, every
   expression is one the splitter accepts, and the table is exactly the section's entries.
   */
  lemma TableSound(lines: seq<string>)
    requires Acceptable(lines, |lines|)
    ensures var entries := Entries(lines, |lines|, Names);
            var names := Bind(entries);
            && Injective(names)
            && (forall k :: k in names ==> Split(names[k]).Ok?)
            && (forall k, x :: Entry(k, x) in entries <==> k in names && names[k] == x)
  {
    hide Split, OneToOne, Bind, Injective;
    var entries := Entries(lines, |lines|, Names);
    BindOneToOne(entries);
    forall k | k in Bind(entries) ensures Split(Bind(entries)[k]).Ok? {
      EntriesAreGood(lines, |lines|, Entry(k, Bind(entries)[k]));
    }
  }
}
