/** Histories of one state-info object: the last value set for a name is the one that is sent. */
module StateHistory {
  import opened Prelude
  import opened StateDocument
  import opened StateRoundTrip
  import opened StateInfoObject

  /** A call on the object: setting a value, or fetching the document. */
  datatype Call = Set(name: string, value: string) | Fetch

  ghost predicate Performs(m: Mapper, c: Cell, call: Call, c': Cell) {
    match call
    case Set(name, value) => c' == SetInfoStep(m, c, name, value)
    case Fetch => GetsDocument(m, c, c')
  }

  /** The object's states before, between and after the calls. */
  ghost predicate IsHistory(m: Mapper, cells: seq<Cell>, calls: seq<Call>) {
    |cells| == |calls| + 1 && forall i :: 0 <= i < |calls| ==> Performs(m, cells[i], calls[i], cells[i + 1])
  }

  /** The last value set for a name, or the one it started with. */
  function Latest(start: Info, calls: seq<Call>, n: string): string {
    if calls == [] then ValueOf(start, n)
    else
      var last := calls[|calls| - 1];
      if last.Set? && last.name == n then last.value else Latest(start, calls[..|calls| - 1], n)
  }

  lemma {:induction false} HoldsLatest(m: Mapper, cells: seq<Cell>, calls: seq<Call>, n: string)
    requires IsHistory(m, cells, calls) && n in m.names
    ensures ValueOf(cells[|calls|].info, n) == Latest(cells[0].info, calls, n)
    decreases |calls|
  {
    hide GetDocumentStep;
    if calls != [] {
      var k := |calls| - 1;
      HoldsLatest(m, cells[..k + 1], calls[..k], n);
      assert Performs(m, cells[k], calls[k], cells[k + 1]);
    }
  }

  lemma HistoryIsRun(m: Mapper, rootName: string, rootNs: string, cells: seq<Cell>, calls: seq<Call>)
    requires IsHistory(m, cells, calls) && Starts(m, rootName, rootNs, cells[0])
    ensures IsRun(m, rootName, rootNs, cells)
  {
    hide GetsDocument, SetInfoStep, Starts;
    forall i | 0 <= i < |cells| - 1
      ensures SetsInfo(m, cells[i], cells[i + 1]) || GetsDocument(m, cells[i], cells[i + 1])
    {
      assert Performs(m, cells[i], calls[i], cells[i + 1]);
    }
  }

  /**
   The last write wins.  For every table whose values survive the round trip and every history, the
   document fetched at the end is there exactly when some latest value is not empty, and analysing
   it gives for each name the latest value, empty ones left out.
   */
  lemma LastWriteWins(m: Mapper, rootName: string, rootNs: string, cells: seq<Cell>, calls: seq<Call>,
                      order: seq<string>, n: string)
    requires RoundTrips(m, rootName, rootNs) && IsHistory(m, cells, calls) && Starts(m, rootName, rootNs, cells[0])
    requires Visits(order, cells[|calls|].info) && n in m.names
    ensures var b := GetDocumentStep(m, cells[|calls|], order);
            && b.error.None?
            && (b.doc.None? ==> Latest(cells[0].info, calls, n) == "")
            && (b.doc.Some? ==>
                  var r := Analyse(m, b.doc, rootName, rootNs);
                  && r.Success?
                  && ValueOf(r.value, n) == Latest(cells[0].info, calls, n)
                  && (n in r.value <==> Latest(cells[0].info, calls, n) != ""))
  {
    hide RoundTrips, GetDocumentStep, Starts, Analyse, IsRun, Fetches;
    HistoryIsRun(m, rootName, rootNs, cells, calls);
    RunsAreCoherent(m, rootName, rootNs, cells, |calls|);
    FetchIsCoherent(m, rootName, rootNs, cells[|calls|], order);
    HoldsLatest(m, cells, calls, n);
    assert n in NonEmpty(cells[|calls|].info) <==> Latest(cells[0].info, calls, n) != "";
  }
}
