# postcode-polygons: a verified model of the query and preprocessing core

postcode-polygons serves UK postcode data over HTTP. A point search
returns the Code-Point records inside a bounding box. A polygon search
returns the boundary polygons of the postcode units, or for large boxes the
postcode districts, that touch a box. This project models in Dafny the parts
of the service that decide what a query means and what it returns:

- **Routes** (`search.dfy`, routes/search.go): parsing and validating the
  `bbox` parameter into four `uint32` values, the 5 km size policy, the
  100 m widening of unit-level queries in wrapping `uint32` arithmetic, the
  point-search handler, and the polygon-search handler. The polygon handler
  resolves visited postcodes to districts and requested identifiers, fetches
  one collection per district, skips missing files, aborts on any other
  error, and keeps the requested features. Each handler's outcome is a
  `Response` value (`BadRequest(message)`, `InternalError` or
  `Success(body)`). The index and the polygon repository are passed in as
  functions.
- **CodePointIndex** (`codepoint_index.dfy`, spatial-index/codepoint.go):
  the R-tree point index as a class holding its records in insertion order.
  It covers window search, `Len`, the decoding of one Code-Point CSV record,
  and the bulk load that inserts records until the first error.
- **ExtractData** (`extract_data.dfy`, cmd/extract_data.go): the
  classification of boundary-archive entries, the in-place rewrite of each
  feature (identifier, `"type"`, dropped keys), and the output path. A lemma
  shows that a `<dir>/<district>.geojson` entry directly under the units or
  districts directory is written exactly to the file the polygon repository
  later reads for that district. Other entries under those directories are
  processed too, but are written to paths the repository never asks for.
- **Compressor** (`postcode_compressor.dfy`,
  extraction/postcode_compressor.go): the older unit-only preprocessing that
  renames `"postcodes"` to `"postcode"`.
- Supporting modules: `Basics` (`uint32` with wrap-around, `Option`,
  `Result`), `GoStrings` (Go's `strings.Split`, `strings.TrimSpace`,
  `strconv.ParseUint(s, 10, 32)` digit by digit, `filepath.Base`) and
  `Features` (GeoJSON features with an opaque geometry).

Points where the code's behaviour is easy to miss:

- Each bbox field is trimmed of white space before it is parsed.
- The error text for a bad field says "not a valid float", although the
  field is parsed as an unsigned integer.
- A unit-level box within 100 m of either end of the `uint32` range wraps
  around when it is widened. The widened box is then inverted, and the
  window query returns nothing; `ExpansionNearRangeEndsSelectsNothing`
  proves this. The box is not checked again after widening.
- A stored feature whose identifier is not a string makes the handler's
  type assertion panic. gin's recovery middleware (cmd/api_server.go) then
  answers 500, so the model reports `InternalError`.

## Model

| member | source | states |
|---|---|---|
| Basics.WrapAdd | routes/search.go:120-121 | `uint32` addition: the plain sum below 2^32, the sum minus 2^32 otherwise |
| Basics.WrapSub | routes/search.go:118-119 | `uint32` subtraction: the plain difference when it is not negative, the difference plus 2^32 otherwise |
| GoStrings.Split | routes/search.go:125 | the fields are one more than the separators, contain no separator, and join back to the input; the first field is a prefix, followed by the separator when shorter |
| GoStrings.SplitJoin | routes/search.go:125 | splitting a join of separator-free fields gives the fields back |
| GoStrings.TrimLeftMeaning | routes/search.go:132 | trimming the front removes a run of white space and stops at a non-space |
| GoStrings.TrimRightMeaning | routes/search.go:132 | trimming the back removes a run of white space and stops at a non-space |
| GoStrings.TrimSpaceMeaning | routes/search.go:132 | the trimmed field is the slice between the leading and trailing white space, and its ends are not white space |
| GoStrings.TrimSpaceUnchanged | routes/search.go:132 | a field with no white space at either end is unchanged by trimming |
| GoStrings.ParseDigitsMeaning | routes/search.go:132 | the digit loop succeeds iff every remaining character is a digit and the value stays within `uint32`, and then yields that value |
| GoStrings.ParseUint32Meaning | routes/search.go:132 | a field parses iff it is non-empty, all decimal digits and at most 2^32-1, and then its value is the decimal value |
| GoStrings.ParseFormatRoundTrip | routes/search.go:132 | the decimal form of every `uint32` parses back to it |
| GoStrings.Base | cmd/extract_data.go:56 | the base name is non-empty and is `/` or free of `/` |
| GoStrings.BaseHasNoSlash | cmd/extract_data.go:56 | a path with any character other than `/` has a base name that is not `/` and contains no `/` |
| GoStrings.BaseOfJoined | cmd/extract_data.go:56 | the base name of `dir/name` is `name` |
| CodePointIndex.Window | spatial-index/codepoint.go:66-69 | a window query visits no more records than are indexed, and only records inside the closed window |
| CodePointIndex.WindowCounts | spatial-index/codepoint.go:66-69 | a window query visits each record inside the window as many times as it was inserted, and no other record |
| CodePointIndex.WindowCoveringAll | spatial-index/codepoint.go:66-69 | a window covering every record visits all of them in order, duplicates included |
| CodePointIndex.WindowCoveringNone | spatial-index/codepoint.go:66-69 | a window covering no record visits nothing and is not an error |
| CodePointIndex.Searched | spatial-index/codepoint.go:42-58 | search fails iff the bounds do not have four values, with the wrapped bounds message; otherwise it gives one result per visited record: its postcode and its min corner |
| CodePointIndex.FromCodePointCsv | spatial-index/codepoint.go:125-141 | decoding succeeds iff fields 2 and 3 both parse; the result is postcode field 0, easting field 2 and northing field 3; the easting error takes precedence over the northing error |
| CodePointIndex.FromCodePointCsvIgnoresField1 | spatial-index/codepoint.go:125-141 | field 1 has no effect on decoding |
| CodePointIndex.FieldErrorMentionsField | spatial-index/codepoint.go:127-134 | an easting error's text contains "easting", a northing error's text contains "northing" |
| CodePointIndex.Ingested | spatial-index/codepoint.go:112-122 | the load inserts at most one record per result, and one for every result iff none failed |
| CodePointIndex.IngestError | spatial-index/codepoint.go:112-116 | the load reports an error iff some result failed |
| CodePointIndex.Imported | spatial-index/codepoint.go:77-99 | the import inserts at most one record per row of the `Data/CSV/` entries |
| CodePointIndex.ImportError | spatial-index/codepoint.go:77-99 | the import fails iff some `Data/CSV/` entry has a failed row |
| CodePointIndex.FirstFailure | spatial-index/codepoint.go:112-116 | the index of the first failed CSV result: every result before it succeeded |
| CodePointIndex.IngestedIsPrefix | spatial-index/codepoint.go:112-122 | the load inserts exactly the results before the first failure, in order; it fails iff some result failed, naming the first failed result's line |
| CodePointIndex.ImportedCountsEveryRow | spatial-index/codepoint.go:89-98 | a load without errors inserts one record per row of the `Data/CSV/` entries, duplicates included; other entries contribute nothing |
| CodePointIndex.FirstFailingEntry | spatial-index/codepoint.go:89-98 | the index of the first `Data/CSV/` entry with a failed row: no CSV entry before it has one |
| CodePointIndex.ImportErrorIsFirstFailingEntry | spatial-index/codepoint.go:89-98 | the import's error is exactly the first failing CSV entry's error, and there is none iff no CSV entry fails |
| CodePointIndex.ImportedStopsAtFirstFailingEntry | spatial-index/codepoint.go:89-98 | the import inserts every row of the CSV entries before the first failing one, in entry and row order (`CsvRecords`), then the rows of the failing entry before its first failed row, and nothing after it |
| CodePointIndex.ImportedAfterCleanPrefix | spatial-index/codepoint.go:89-98 | entries that do not fail contribute every CSV row in order, and the import continues with the entries after them |
| CodePointIndex.RtreeSpatialIndex.constructor | spatial-index/codepoint.go:30-32 | a new index holds no records |
| CodePointIndex.RtreeSpatialIndex.Len | spatial-index/codepoint.go:73-75 | no window query visits more records than the size reports |
| CodePointIndex.RtreeSpatialIndex.Insert | spatial-index/codepoint.go:118-119 | inserting appends one record, so `Len` grows by one even for duplicates |
| CodePointIndex.RtreeSpatialIndex.SearchIter | spatial-index/codepoint.go:61-71 | fails iff the bounds do not have four values, then visiting nothing; otherwise it visits exactly the window's records |
| CodePointIndex.RtreeSpatialIndex.Search | spatial-index/codepoint.go:42-58 | equals `Searched` over the index's records |
| CodePointIndex.RtreeSpatialIndex.ProcessCsv | spatial-index/codepoint.go:101-123 | appends the records before the first failed result, leaving earlier records in place, and returns that result's line error |
| CodePointIndex.RtreeSpatialIndex.ImportCodePoint | spatial-index/codepoint.go:77-99 | processes only non-directory `Data/CSV/` entries in order and stops at the first one that fails: the new records are the old ones followed by `Imported`, and the error is `ImportError` |
| CodePointIndex.NewCodePointSpatialIndex | spatial-index/codepoint.go:29-40 | a fresh index iff the load succeeds, holding the loaded records, with `Len` equal to the number of CSV rows; otherwise the load error |
| Routes.FirstInvalid | routes/search.go:131-135 | the index of the first field that does not parse: every field before it parses |
| Routes.ParsedParts | routes/search.go:126-143 | fails with the field-count error iff there are not four parts; succeeds iff all four parse and the box is ordered, giving the parsed values in order; an invalid-value error names the first bad part |
| Routes.ParseBBox | routes/search.go:124-144 | filling the buffer field by field returns what `ParsedBBox` specifies: `ParsedParts` of the comma-separated fields |
| Routes.ParseFormatBBox | routes/search.go:124-144 | every ordered box written as four comma-separated decimals parses back to itself |
| Routes.IsTooBig | routes/search.go:146-148 | on an ordered box, too big iff the width or the height exceeds 5000 |
| Routes.TooBigThreshold | routes/search.go:26 | an extent of exactly 5000 is not too big; 5001 in either direction is |
| Routes.TargetFor | routes/search.go:63-68 | the target is `districts` exactly for an oversized box and `units` otherwise, and is a single path component |
| Routes.Expanded | routes/search.go:116-122 | widening keeps the box's four entries in place and changes nothing beyond them; a zero margin leaves the box as it was |
| Routes.ExpandBounds | routes/search.go:116-122 | moves entries 0 and 1 down and entries 2 and 3 up by the margin, modulo 2^32, and changes no other entry |
| Routes.ExpandedContainsOriginal | routes/search.go:116-122 | without wrap-around, the widened box is the box grown on every side and contains every point of the original |
| Routes.ExpansionNearRangeEndsSelectsNothing | routes/search.go:116-122 | a unit-level box within 100 of either end of the range becomes inverted when widened, and contains no point |
| Routes.PlannedQuery | routes/search.go:63-68 | the index is asked for the box itself when it is too big, and for the box widened by 100 otherwise |
| Routes.CodePointSearch | routes/search.go:28-53 | a parse error or an oversized box answers 400 with its message, before the index is consulted; an index error answers 500; otherwise the index's results are the body, unchanged |
| Routes.OversizedBoxIsRejected | routes/search.go:36-39 | a parsed box wider or taller than 5000 is always classified too big |
| Routes.District | routes/search.go:74 | the district is the postcode up to its first space, or the whole postcode when it has none |
| Routes.CoarseQueryRequestsDistricts | routes/search.go:70-82 | a district-level query requests the district of every visited postcode, and only space-free codes |
| Routes.ResolveUnits | routes/search.go:70-82 | the visitor builds exactly the set of visited districts (`Districts`), and requests (`Requested`) the districts of a district-level query or the full postcodes of a unit-level one; no visit means two empty sets |
| Routes.Kept | routes/search.go:104-108 | the filter keeps at most the collection's features, each with a requested string identifier |
| Routes.RepoPathIsInjective | internal/polygons_repo.go:23 | every level and district has its own repository file: two paths with single-component targets are equal iff target and district are |
| Routes.KeptAppend | routes/search.go:104-108 | the filter works feature by feature in order: filtering a concatenation concatenates the filtered parts |
| Routes.KeptSingle | routes/search.go:104-108 | one feature is kept alone iff its identifier is a requested string, and dropped otherwise |
| Routes.KeptMembership | routes/search.go:104-108 | a feature is kept iff it is in the collection and its identifier is a requested string |
| Routes.KeptAllRequested | routes/search.go:104-108 | when every identifier is requested, the collection is kept whole and in order |
| Routes.Contribution | routes/search.go:94-108 | a district aborts the query iff the repository fails other than by a missing file, or a loaded feature has a non-string identifier |
| Routes.CollectedFailsIffBroken | routes/search.go:92-103 | collection fails iff some fetched district aborts, so a missing file is skipped |
| Routes.CollectedAppend | routes/search.go:89-109 | `Collected` keeps the district order: collecting two runs of districts in turn concatenates their collections, and fails iff either run fails |
| Routes.CollectedSingle | routes/search.go:92-108 | one district collects exactly its own contribution, so by `CollectedAppend` each district's kept features appear in their stored order |
| Routes.CollectedMembership | routes/search.go:92-109 | a successful collection holds exactly the loaded features whose identifier is requested |
| Routes.AppendRequested | routes/search.go:104-108 | appends the requested features of one collection in order, and fails iff an identifier is not a string |
| Routes.CollectFeatures | routes/search.go:89-109 | fails iff some district aborts, and then stops at the first aborting district: it is the last one fetched and none before it aborts; otherwise every district is fetched exactly once and the result is `Collected` over that order; no district is fetched twice; no district means no fetch and an empty result |
| Routes.PolygonSearch | routes/search.go:55-114 | a parse error answers 400 without a query; the index is asked for the planned window; an index error answers 500 with no fetch; otherwise 500 iff some visited district aborts, and then the fetch stopped at the first aborting district; on success every district is fetched once and the body is exactly the kept features; no district is fetched twice; no visited postcode gives an empty body |
| ExtractData.ExtractFileType | cmd/extract_data.go:95-105 | non-regular entries give `("", "")`; regular units entries give `("unit", "postcodes")` and regular districts entries `("district", "district")`; every other entry gives `("", "")`; a classified name never starts with `/` |
| ExtractData.PrefixesAreDisjoint | cmd/extract_data.go:98-101 | no entry name has both the units and the districts prefix |
| ExtractData.OutputPath | cmd/extract_data.go:56 | a processed entry is written under `./data/postcodes/<type>s/`, and directly in it, with no further directory level, whenever the entry name does not start with `/`, as every classified name does |
| ExtractData.OutputPathOfEntry | cmd/extract_data.go:56 | the entry `<dir>/<district>.geojson` of type `t` is written to `./data/postcodes/<t>s/<district>.geojson.bz2` |
| ExtractData.OutputIsServed | cmd/extract_data.go:53-56 | a processed unit or district file lands exactly at the repository path the polygon search reads for that district and level |
| ExtractData.EntryFileType | cmd/extract_data.go:95-105 | a regular `<dir>/<district>.geojson` entry is classified by its directory |
| ExtractData.FirstMissing | cmd/extract_data.go:109-113 | the index of the first feature without a string property: every feature before it has one |
| ExtractData.Rewritten | cmd/extract_data.go:109-120 | a rewritten feature's identifier is the former string property, and neither that property nor `"mapit_code"` remains |
| ExtractData.RewrittenMeaning | cmd/extract_data.go:109-120 | a rewritten feature's identifier is the former property value; `"type"` holds the file type; `"mapit_code"` and the property are gone; every other key is unchanged |
| ExtractData.Reprocessed | cmd/extract_data.go:107-123 | the rewrite keeps the number of features |
| ExtractData.ReprocessedIdsAreStrings | cmd/extract_data.go:115 | after a successful rewrite every identifier is a string equal to the former property value, so the served file never aborts a polygon search |
| ExtractData.ReprocessFeatureCollection | cmd/extract_data.go:107-123 | fails iff some feature lacks a string property, with the missing-property message; features before the first such feature are rewritten in place and the rest are untouched |
| Compressor.Selects | extraction/postcode_compressor.go:49 | the legacy filter takes only regular files, never a districts entry, and never a name starting with `/` |
| Compressor.SelectsExactlyUnits | extraction/postcode_compressor.go:49 | the legacy filter takes exactly the entries the newer step classifies as unit files |
| Compressor.OutputPath | extraction/postcode_compressor.go:68 | the legacy output is written under `./data/postcodes/`, and directly in it whenever the entry name does not start with `/`, as every selected name does |
| Compressor.OutputIsNotServed | extraction/postcode_compressor.go:68 | the legacy output path is never a path the polygon repository reads |
| Compressor.Renamed | extraction/postcode_compressor.go:121-131 | a renamed feature has a string `"postcode"` equal to its former `"postcodes"`, no `"postcodes"` or `"mapit_code"`, and the same identifier |
| Compressor.RenamedMeaning | extraction/postcode_compressor.go:121-131 | `"postcode"` holds the former `"postcodes"` value; `"postcodes"` and `"mapit_code"` are gone; every other key and the identifier are unchanged |
| Compressor.RenameFeature | extraction/postcode_compressor.go:121-131 | the loop body for one feature builds exactly `Renamed` of it |
| Compressor.Reprocessed | extraction/postcode_compressor.go:121-131 | the rename keeps the number of features |
| Compressor.ReprocessedCarriesPostcode | extraction/postcode_compressor.go:127-130 | after a successful pass every feature has a string `"postcode"` equal to its former `"postcodes"`, and no `"postcodes"` remains for a second pass |
| Compressor.ReprocessFile | extraction/postcode_compressor.go:115-134 | fails iff some feature lacks a string `"postcodes"`, reporting the first such feature's identifier; features before it are renamed in place and the rest are untouched |

## Left out

- HTTP and gin plumbing: query-string access, JSON encoding, status codes and the Content-Type header. A handler's outcome is a `Response` value instead.
- Routes.CodePointSearch: the response's attribution list is not modelled. `ATTRIBUTION` is defined in a file that is not part of this model.
- The polygon repository's memoising cache (internal/polygons_repo.go): single-flight and TTL behaviour is concurrency inside a library. The repository is a function from `(target, district)` to a loaded collection, "does not exist" or another error. Only its path format is kept, as `Routes.RepoPath`.
- Routes.PolygonSearch: the districts are visited in Go's unspecified map order. The model proves the result for the order it reports (`fetched`), whatever that order is, rather than for one fixed order.
- CodePointIndex.RtreeSpatialIndex.SearchIter: the R-tree's internal visit order and balancing are not modelled. Records are visited in insertion order, and every caller's visitor returns true, so early termination is not modelled.
- CodePointIndex.FromCodePointCsv: a record with fewer than four fields makes the Go code panic. The model requires four fields instead.
- CodePointIndex.FieldErrorMentionsField: only the text this code adds is modelled. `strconv`'s own error text, with its quoting of the input, is represented by the `Syntax`/`Range` kind.
- CodePointIndex.RtreeSpatialIndex.ProcessCsv: the error is the failed line number and its cause. The surrounding texts ("error parsing line", "failed to process CSV data", "failed to load codepoint index") are not modelled.
- `parseCSV` (spatial-index/csv.go) is not part of this model. Its results are a given sequence of `(value, lineNum, error)` per entry.
- Zip, tar and bzip2 reading, the failure to open an entry, JSON decoding and encoding, `os.Stat` skip-if-exists checks, `log.Fatalf`, logging and colours are all left out. They are I/O handled by libraries.
- `truncate`, `truncatePolygon` and `truncateCoordinates` work on `float64` geometry. Geometry is opaque here, and truncation is a function parameter of the rewrites. The fatal exit for unsupported geometry types is not modelled.
- Go strings are byte sequences; the model's strings are sequences of Unicode characters, so a query string that is not valid UTF-8 cannot be represented. For valid UTF-8 no outcome differs: Go's `strings.TrimSpace` decodes the bytes to characters before testing them for white space, and the other tests are on ASCII characters.
- Compressor.ReprocessFile: the model reports the offending feature's identifier, not the formatted message text.
- cmd/api_server.go, main.go and internal/downloader.go are wiring, process start-up and an HTTP download; they are not part of this model.
