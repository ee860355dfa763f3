/** The point spatial index of spatial-index/codepoint.go: an R-tree from
    grid points to postcodes, here a sequence of records in insertion order
    (the tree's balancing is not modelled), with its window queries, the
    decoding of one Code-Point CSV record and the bulk load from a zip
    archive's CSV entries. */
module CodePointIndex {
  import opened Basics
  import opened GoStrings

  /** `CodePoint`: one postcode and its grid coordinates. */
  datatype CodePoint = CodePoint(postCode: string, easting: u32, northing: u32)

  /** A grid point, `[2]uint32{easting, northing}`. */
  datatype Point = Point(easting: u32, northing: u32)

  /** One item of the tree: a point inserted as the degenerate rectangle
      `(p, p)`, carrying its postcode. */
  datatype Record = Record(point: Point, postcode: string)

  const BoundsLengthMessage: string :=
    "search bounds must contain exactly 4 values: min_easting, min_northing, max_easting, max_northing"

  /** The closed window `[b[0], b[2]] x [b[1], b[3]]` contains `p`; for a
      degenerate rectangle this is the tree's intersection test. */
  predicate InWindow(p: Point, bounds: seq<u32>)
    requires |bounds| == 4
  {
    bounds[0] <= p.easting <= bounds[2] && bounds[1] <= p.northing <= bounds[3]
  }

  /** The records a window query visits, in insertion order. */
  function Window(records: seq<Record>, bounds: seq<u32>): (w: seq<Record>)
    requires |bounds| == 4
    ensures |w| <= |records|
    ensures forall i :: 0 <= i < |w| ==> InWindow(w[i].point, bounds)
  {
    if records == [] then []
    else
      var last := records[|records| - 1];
      assert records == records[..|records| - 1] + [last];
      Window(records[..|records| - 1], bounds) + (if InWindow(last.point, bounds) then [last] else [])
  }

  /** A window query visits every record inside the window as often as it
      was inserted, and nothing else. */
  lemma {:induction false} WindowCounts(records: seq<Record>, bounds: seq<u32>, r: Record)
    requires |bounds| == 4
    ensures multiset(Window(records, bounds))[r] == if InWindow(r.point, bounds) then multiset(records)[r] else 0
  {
    if records != [] {
      var last := records[|records| - 1];
      assert records == records[..|records| - 1] + [last];
      WindowCounts(records[..|records| - 1], bounds, r);
    }
  }

  /** A window covering every record visits all of them, duplicates included. */
  lemma {:induction false} WindowCoveringAll(records: seq<Record>, bounds: seq<u32>)
    requires |bounds| == 4
    requires forall i :: 0 <= i < |records| ==> InWindow(records[i].point, bounds)
    ensures Window(records, bounds) == records
  {
    if records != [] {
      WindowCoveringAll(records[..|records| - 1], bounds);
      assert records == records[..|records| - 1] + [records[|records| - 1]];
    }
  }

  /** A window covering no record visits nothing (and is not an error). */
  lemma {:induction false} WindowCoveringNone(records: seq<Record>, bounds: seq<u32>)
    requires |bounds| == 4
    requires forall i :: 0 <= i < |records| ==> !InWindow(records[i].point, bounds)
    ensures Window(records, bounds) == []
  {
    if records != [] {
      WindowCoveringNone(records[..|records| - 1], bounds);
    }
  }

  /** The `CodePoint` that `Search` builds for a visited record: the postcode
      and the rectangle's min corner. */
  function AsCodePoint(r: Record): CodePoint
  {
    CodePoint(r.postcode, r.point.easting, r.point.northing)
  }

  /** What `Search` returns over the records `records`. */
  function Searched(records: seq<Record>, bounds: seq<u32>): (r: Result<seq<CodePoint>, string>)
    ensures r.Err? <==> |bounds| != 4
    ensures r.Err? ==> r.error == "error during spatial search: " + BoundsLengthMessage
    ensures r.Ok? ==> |r.value| == |Window(records, bounds)|
    ensures r.Ok? ==> forall i :: 0 <= i < |r.value| ==>
      r.value[i].postCode == Window(records, bounds)[i].postcode
      && r.value[i].easting == Window(records, bounds)[i].point.easting
      && r.value[i].northing == Window(records, bounds)[i].point.northing
  {
    if |bounds| != 4 then Err("error during spatial search: " + BoundsLengthMessage)
    else
      var w := Window(records, bounds);
      Ok(seq(|w|, i requires 0 <= i < |w| => AsCodePoint(w[i])))
  }

  // ---------------------------------------------------------------------
  // fromCodePointCSV

  /** The error `fromCodePointCSV` returns, wrapping the `strconv` error. */
  datatype FieldError = InvalidEasting(field: string, cause: NumError)
                      | InvalidNorthing(field: string, cause: NumError)
  {
    /** The text of the error, up to the wrapped `strconv` error's text. */
    function MessagePrefix(): string
    {
      match this
      case InvalidEasting(_, _) => "invalid easting value: "
      case InvalidNorthing(_, _) => "invalid northing value: "
    }
  }

  /** `fromCodePointCSV`: postcode from field 0, easting from field 2 and
      northing from field 3 (field 1 is ignored); the easting is checked
      first. Go indexes the record directly, so a record with fewer than
      four fields is outside what the source tolerates. */
  function FromCodePointCsv(record: seq<string>): (r: Result<CodePoint, FieldError>)
    requires |record| >= 4
    ensures r.Ok? <==> ParseUint32(record[2]).Ok? && ParseUint32(record[3]).Ok?
    ensures r.Ok? ==> r.value == CodePoint(record[0], ParseUint32(record[2]).value, ParseUint32(record[3]).value)
    ensures ParseUint32(record[2]).Err? ==> r == Err(InvalidEasting(record[2], ParseUint32(record[2]).error))
    ensures ParseUint32(record[2]).Ok? && ParseUint32(record[3]).Err? ==>
      r == Err(InvalidNorthing(record[3], ParseUint32(record[3]).error))
  {
    match ParseUint32(record[2])
    case Err(e) => Err(InvalidEasting(record[2], e))
    case Ok(easting) =>
      match ParseUint32(record[3])
      case Err(e) => Err(InvalidNorthing(record[3], e))
      case Ok(northing) => Ok(CodePoint(record[0], easting, northing))
  }

  /** Field 1 of a record does not affect its decoding. */
  lemma FromCodePointCsvIgnoresField1(record: seq<string>, other: string)
    requires |record| >= 4
    ensures FromCodePointCsv(record[1 := other]) == FromCodePointCsv(record)
  {
  }

  /** `word` occurs as a contiguous part of `s`. */
  predicate Mentions(s: string, word: string)
  {
    exists i :: 0 <= i <= |s| && word <= s[i..]
  }

  /** An easting error names the easting, a northing error the northing. */
  lemma FieldErrorMentionsField(e: FieldError)
    ensures e.InvalidEasting? ==> Mentions(e.MessagePrefix(), "easting")
    ensures e.InvalidNorthing? ==> Mentions(e.MessagePrefix(), "northing")
  {
    if e.InvalidEasting? {
      assert "easting" <= e.MessagePrefix()[8..];
    } else {
      assert "northing" <= e.MessagePrefix()[8..];
    }
  }

  // ---------------------------------------------------------------------
  // The bulk load: processCSV and importCodePoint

  /** One result of `parseCSV`: the decoded value, its line number and the
      error, if any. */
  datatype CsvResult = CsvResult(value: CodePoint, lineNum: int, error: Option<string>)

  /** The error `processCSV` returns: "error parsing line %d: %w". */
  datatype LineError = LineError(lineNum: int, cause: string)

  /** The record `processCSV` inserts for a successful result. */
  function RecordOf(c: CodePoint): Record
  {
    Record(Point(c.easting, c.northing), c.postCode)
  }

  /** The records `processCSV` inserts: one per result, up to the first
      failed one. */
  function Ingested(results: seq<CsvResult>): (r: seq<Record>)
    ensures |r| <= |results|
    ensures |r| == |results| <==> IngestError(results).None?
  {
    if results == [] || results[0].error.Some? then []
    else [RecordOf(results[0].value)] + Ingested(results[1..])
  }

  /** The error `processCSV` returns: the first failed result's, with its
      line number. */
  function IngestError(results: seq<CsvResult>): (e: Option<LineError>)
    ensures e.None? <==> forall i :: 0 <= i < |results| ==> results[i].error.None?
  {
    if results == [] then None
    else if results[0].error.Some? then Some(LineError(results[0].lineNum, results[0].error.value))
    else IngestError(results[1..])
  }

  /** Index of the first failed result, or `|results|` when none failed. */
  function FirstFailure(results: seq<CsvResult>): (k: nat)
    ensures k <= |results|
    ensures forall i :: 0 <= i < k ==> results[i].error.None?
    ensures k < |results| ==> results[k].error.Some?
  {
    if results == [] then 0
    else if results[0].error.Some? then 0
    else 1 + FirstFailure(results[1..])
  }

  /** The load inserts exactly the results before the first failure, in
      order, and fails iff some result failed, naming the first one's line. */
  lemma {:induction false} IngestedIsPrefix(results: seq<CsvResult>)
    ensures |Ingested(results)| == FirstFailure(results)
    ensures forall i :: 0 <= i < FirstFailure(results) ==> Ingested(results)[i] == RecordOf(results[i].value)
    ensures IngestError(results).None? <==> FirstFailure(results) == |results|
    ensures IngestError(results).Some? ==>
      var k := FirstFailure(results);
      IngestError(results).value == LineError(results[k].lineNum, results[k].error.value)
  {
    if results != [] && results[0].error.None? {
      IngestedIsPrefix(results[1..]);
    }
  }

  /** `importCodePoint` reads only non-directory entries under "Data/CSV/". */
  datatype ZipEntry = ZipEntry(name: string, isDir: bool, rows: seq<CsvResult>)

  predicate IsCsvEntry(e: ZipEntry)
  {
    !e.isDir && HasPrefix(e.name, "Data/CSV/")
  }

  /** The records `importCodePoint` inserts: those of each CSV entry in
      order, up to and including the first failing entry. */
  function Imported(entries: seq<ZipEntry>): (r: seq<Record>)
    ensures |r| <= CsvRowCount(entries)
  {
    if entries == [] then []
    else if !IsCsvEntry(entries[0]) then Imported(entries[1..])
    else if IngestError(entries[0].rows).Some? then Ingested(entries[0].rows)
    else Ingested(entries[0].rows) + Imported(entries[1..])
  }

  /** The error `importCodePoint` returns: that of the first failing CSV entry. */
  function ImportError(entries: seq<ZipEntry>): (e: Option<LineError>)
    ensures e.None? <==>
      forall i :: 0 <= i < |entries| && IsCsvEntry(entries[i]) ==> IngestError(entries[i].rows).None?
  {
    if entries == [] then None
    else if !IsCsvEntry(entries[0]) then ImportError(entries[1..])
    else if IngestError(entries[0].rows).Some? then IngestError(entries[0].rows)
    else ImportError(entries[1..])
  }

  /** The number of rows in the CSV entries. */
  function CsvRowCount(entries: seq<ZipEntry>): nat
  {
    if entries == [] then 0
    else (if IsCsvEntry(entries[0]) then |entries[0].rows| else 0) + CsvRowCount(entries[1..])
  }

  /** A CSV entry whose rows do not all parse: the import stops at it. */
  predicate FailingEntry(e: ZipEntry)
  {
    IsCsvEntry(e) && IngestError(e.rows).Some?
  }

  /** Index of the first failing CSV entry, or `|entries|` when none fails. */
  function FirstFailingEntry(entries: seq<ZipEntry>): (k: nat)
    ensures k <= |entries|
    ensures forall i :: 0 <= i < k ==> !FailingEntry(entries[i])
    ensures k < |entries| ==> FailingEntry(entries[k])
  {
    if entries == [] || FailingEntry(entries[0]) then 0
    else 1 + FirstFailingEntry(entries[1..])
  }

  /** One record per row, in order: what a CSV entry without failures adds. */
  function RowRecords(rows: seq<CsvResult>): (r: seq<Record>)
    ensures |r| == |rows|
    ensures forall i :: 0 <= i < |rows| ==> r[i] == RecordOf(rows[i].value)
  {
    seq(|rows|, i requires 0 <= i < |rows| => RecordOf(rows[i].value))
  }

  /** Every row of the CSV entries, in entry order; other entries give nothing. */
  function CsvRecords(entries: seq<ZipEntry>): (r: seq<Record>)
    ensures |r| == CsvRowCount(entries)
  {
    if entries == [] then []
    else (if IsCsvEntry(entries[0]) then RowRecords(entries[0].rows) else []) + CsvRecords(entries[1..])
  }

  /** The import fails with the error of the first failing CSV entry, and
      succeeds iff there is none. */
  lemma {:induction false} ImportErrorIsFirstFailingEntry(entries: seq<ZipEntry>)
    ensures var k := FirstFailingEntry(entries);
      ImportError(entries) == (if k < |entries| then IngestError(entries[k].rows) else None)
  {
    if entries != [] && !FailingEntry(entries[0]) {
      ImportErrorIsFirstFailingEntry(entries[1..]);
    }
  }

  /** The import stops at the first failing CSV entry: the records are every
      row of the CSV entries before it, in order, followed by the rows of
      the failing entry before its first failed row. Without a failing
      entry it inserts every CSV row. */
  lemma ImportedStopsAtFirstFailingEntry(entries: seq<ZipEntry>)
    ensures var k := FirstFailingEntry(entries);
      Imported(entries) == CsvRecords(entries[..k]) + (if k < |entries| then Ingested(entries[k].rows) else [])
  {
    var k := FirstFailingEntry(entries);
    assert entries == entries[..k] + entries[k..];
    ImportedAfterCleanPrefix(entries[..k], entries[k..]);
    if k < |entries| {
      assert entries[k..][0] == entries[k];
    } else {
      assert entries[k..] == [];
    }
  }

  /** Entries that do not fail contribute all their CSV rows, and the import
      goes on with the entries after them. */
  lemma {:induction false} ImportedAfterCleanPrefix(pre: seq<ZipEntry>, post: seq<ZipEntry>)
    requires forall i :: 0 <= i < |pre| ==> !FailingEntry(pre[i])
    ensures Imported(pre + post) == CsvRecords(pre) + Imported(post)
  {
    if pre == [] {
      assert pre + post == post;
    } else {
      var all := pre + post;
      assert all[0] == pre[0];
      assert all[1..] == pre[1..] + post;
      ImportedAfterCleanPrefix(pre[1..], post);
      var head := ImportedHead(all);
      assert head + (CsvRecords(pre[1..]) + Imported(post)) == (head + CsvRecords(pre[1..])) + Imported(post);
    }
  }

  /** A first entry that does not fail contributes all of its rows, or
      nothing when it is not a CSV entry, and the import goes on. */
  lemma ImportedHead(entries: seq<ZipEntry>) returns (head: seq<Record>)
    requires entries != [] && !FailingEntry(entries[0])
    ensures head == (if IsCsvEntry(entries[0]) then RowRecords(entries[0].rows) else [])
    ensures Imported(entries) == head + Imported(entries[1..])
  {
    head := if IsCsvEntry(entries[0]) then RowRecords(entries[0].rows) else [];
    if IsCsvEntry(entries[0]) {
      IngestedIsPrefix(entries[0].rows);
      assert Ingested(entries[0].rows) == head;
    } else {
      assert [] + Imported(entries[1..]) == Imported(entries[1..]);
    }
  }

  /** A load without errors indexes one record per CSV row, duplicates
      included; entries outside "Data/CSV/" contribute nothing. */
  lemma {:induction false} ImportedCountsEveryRow(entries: seq<ZipEntry>)
    requires ImportError(entries).None?
    ensures |Imported(entries)| == CsvRowCount(entries)
  {
    if entries != [] {
      ImportedCountsEveryRow(entries[1..]);
      if IsCsvEntry(entries[0]) {
        IngestedIsPrefix(entries[0].rows);
      }
    }
  }

  /** The index: a multiset of point records held in insertion order. */
  class RtreeSpatialIndex {
    var records: seq<Record>

    /** An empty index, as `NewCodePointSpatialIndex` allocates it. */
    constructor ()
      ensures records == []
    {
      records := [];
    }

    /** `Len`: the number of records, duplicates counted. */
    function Len(): (n: nat)
      reads this
      ensures forall b :: |b| == 4 ==> |Window(records, b)| <= n
    {
      |records|
    }

    /** `tree.Insert(point, point, postcode)`. */
    method Insert(p: Point, postcode: string)
      modifies this
      ensures records == old(records) + [Record(p, postcode)]
      ensures Len() == old(Len()) + 1
    {
      records := records + [Record(p, postcode)];
    }

    /** `SearchIter` with a visitor that never stops early: the records the
        visitor is called on, or the bounds-length error before anything is
        visited. */
    method SearchIter(bounds: seq<u32>) returns (err: Option<string>, visited: seq<Record>)
      ensures err.Some? <==> |bounds| != 4
      ensures err.Some? ==> err.value == BoundsLengthMessage && visited == []
      ensures err.None? ==> visited == Window(records, bounds)
    {
      if |bounds| != 4 {
        return Some(BoundsLengthMessage), [];
      }
      err, visited := None, [];
      for i := 0 to |records|
        invariant visited == Window(records[..i], bounds)
      {
        assert records[..i + 1][..i] == records[..i];
        if InWindow(records[i].point, bounds) {
          visited := visited + [records[i]];
        }
      }
      assert records[..|records|] == records;
    }

    /** `Search`: one `CodePoint` per visited record, built by the visitor;
        its only error is `SearchIter`'s, wrapped. */
    method Search(bounds: seq<u32>) returns (r: Result<seq<CodePoint>, string>)
      ensures r == Searched(records, bounds)
    {
      var err, visited := SearchIter(bounds);
      if err.Some? {
        return Err("error during spatial search: " + err.value);
      }
      var results: seq<CodePoint> := [];
      for i := 0 to |visited|
        invariant |results| == i
        invariant forall j :: 0 <= j < i ==> results[j] == AsCodePoint(visited[j])
      {
        results := results + [AsCodePoint(visited[i])];
      }
      assert results == seq(|visited|, i requires 0 <= i < |visited| => AsCodePoint(visited[i]));
      r := Ok(results);
    }

    /** `processCSV`: inserts each successful result in order, as the point
        `(easting, northing)`, and stops at the first error, which names its
        line; records before it stay inserted and later ones are not read. */
    method ProcessCsv(results: seq<CsvResult>) returns (err: Option<LineError>)
      modifies this
      ensures records == old(records) + Ingested(results)
      ensures err == IngestError(results)
    {
      for i := 0 to |results|
        invariant records + Ingested(results[i..]) == old(records) + Ingested(results)
        invariant IngestError(results[i..]) == IngestError(results)
      {
        var result := results[i];
        assert results[i..][1..] == results[i + 1..];
        if result.error.Some? {
          return Some(LineError(result.lineNum, result.error.value));
        }
        Insert(Point(result.value.easting, result.value.northing), result.value.postCode);
      }
      err := None;
    }

    /** `importCodePoint`: processes the CSV entries in order and stops at the
        first one that fails. */
    method ImportCodePoint(entries: seq<ZipEntry>) returns (err: Option<LineError>)
      modifies this
      ensures records == old(records) + Imported(entries)
      ensures err == ImportError(entries)
    {
      for i := 0 to |entries|
        invariant records + Imported(entries[i..]) == old(records) + Imported(entries)
        invariant ImportError(entries[i..]) == ImportError(entries)
      {
        var f := entries[i];
        assert entries[i..][1..] == entries[i + 1..];
        if f.isDir || !HasPrefix(f.name, "Data/CSV/") {
          continue;
        }
        var e := ProcessCsv(f.rows);
        if e.Some? {
          return e;
        }
      }
      err := None;
    }
  }

  /** `NewCodePointSpatialIndex`: a fresh index loaded from the archive's
      entries, or the load error. */
  method NewCodePointSpatialIndex(entries: seq<ZipEntry>) returns (r: Result<RtreeSpatialIndex, LineError>)
    ensures r.Ok? <==> ImportError(entries).None?
    ensures r.Err? ==> r.error == ImportError(entries).value
    ensures r.Ok? ==> fresh(r.value) && r.value.records == Imported(entries)
    ensures r.Ok? ==> r.value.Len() == CsvRowCount(entries)
  {
    var idx := new RtreeSpatialIndex();
    var err := idx.ImportCodePoint(entries);
    if err.Some? {
      return Err(err.value);
    }
    ImportedCountsEveryRow(entries);
    return Ok(idx);
  }
}
