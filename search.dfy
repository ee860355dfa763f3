/** The query planner and unit resolver of routes/search.go: bounding-box
    parsing and validation, the 5 km size policy, the 100 m expansion for
    unit-level queries, and the two HTTP handlers, each modelled as a method
    whose outcome is a `Response` instead of a gin response. The spatial
    index and the polygon repository are passed in as functions, so that any
    implementation of their interfaces (the tests' mocks included) can be
    plugged in. */
module Routes {
  import opened Basics
  import opened GoStrings
  import opened Features
  import CodePointIndex

  /** `MAX_BOUNDS`: the largest width or height, in metres (5 km). */
  const MaxBounds: int := 5000

  /** `UNITS_BOUNDS_EXPANSION`: the margin added around a unit-level query. */
  const UnitsBoundsExpansion: u32 := 100

  const TooLargeMessage: string := "bbox is too large, must be less than 5km in width and height"

  /** What a handler sends back: a 400 with its error text, a 500, or a 200
      with its body. */
  datatype Response<T> = BadRequest(message: string) | InternalError | Success(body: T)

  // ---------------------------------------------------------------------
  // parseBBox

  /** Why `parseBBox` refused its input. */
  datatype BBoxError = FieldCount | InvalidValue(part: string) | Inverted
  {
    function Message(): string
    {
      match this
      case FieldCount => "bbox must have 4 comma-separated values"
      case InvalidValue(part) => "invalid bbox value '" + part + "': not a valid float"
      case Inverted => "invalid bbox: min values must be less than or equal to max values"
    }
  }

  /** One bbox field: trimmed, then `strconv.ParseUint(_, 10, 32)`. */
  function ParseField(part: string): Result<u32, NumError>
  {
    ParseUint32(TrimSpace(part))
  }

  /** Index of the first field from `from` on that does not parse, or
      `|parts|`. */
  function FirstInvalid(parts: seq<string>, from: nat): (k: nat)
    requires from <= |parts|
    ensures from <= k <= |parts|
    ensures forall i :: from <= i < k ==> ParseField(parts[i]).Ok?
    ensures k < |parts| ==> ParseField(parts[k]).Err?
    decreases |parts| - from
  {
    if from == |parts| || ParseField(parts[from]).Err? then from else FirstInvalid(parts, from + 1)
  }

  /** What `parseBBox` makes of the comma-separated parts of its input:
      exactly four parts, each a decimal `uint32` once trimmed, with the
      min corner below the max corner on both axes. */
  function ParsedParts(parts: seq<string>): (r: Result<seq<u32>, BBoxError>)
    ensures r == Err(FieldCount) <==> |parts| != 4
    ensures r.Ok? <==>
      && |parts| == 4
      && (forall i :: 0 <= i < 4 ==> ParseField(parts[i]).Ok?)
      && ParseField(parts[0]).value <= ParseField(parts[2]).value
      && ParseField(parts[1]).value <= ParseField(parts[3]).value
    ensures r.Ok? ==> |r.value| == 4 && forall i :: 0 <= i < 4 ==> ParseField(parts[i]) == Ok(r.value[i])
    ensures r.Ok? ==> r.value[0] <= r.value[2] && r.value[1] <= r.value[3]
    ensures r.Err? && r.error.InvalidValue? ==>
      var k := FirstInvalid(parts, 0);
      k < 4 && r.error.part == parts[k]
    ensures r == Err(Inverted) ==> |parts| == 4 && FirstInvalid(parts, 0) == 4
  {
    if |parts| != 4 then Err(FieldCount)
    else
      var k := FirstInvalid(parts, 0);
      if k < 4 then Err(InvalidValue(parts[k]))
      else
        var b: seq<u32> := seq(4, i requires 0 <= i < 4 => ParseField(parts[i]).value);
        if b[0] > b[2] || b[1] > b[3] then Err(Inverted) else Ok(b)
  }

  /** What `parseBBox` returns for `s`. */
  function ParsedBBox(s: string): Result<seq<u32>, BBoxError>
  {
    ParsedParts(Split(s, ','))
  }

  /** `parseBBox`: fills a freshly made four-element buffer field by field, failing at the
      first field that does not parse, then checks the ordering. */
  method ParseBBox(s: string) returns (r: Result<seq<u32>, BBoxError>)
    ensures r == ParsedBBox(s)
  {
    var parts := Split(s, ',');
    assert ParsedBBox(s) == ParsedParts(parts);
    if |parts| != 4 {
      return Err(FieldCount);
    }
    var bbox := new u32[4];
    for i := 0 to 4
      invariant forall j :: 0 <= j < i ==> ParseField(parts[j]) == Ok(bbox[..i][j])
    {
      var val := ParseField(parts[i]);
      if val.Err? {
        assert FirstInvalid(parts, 0) == i;
        return Err(InvalidValue(parts[i]));
      }
      ghost var filled := bbox[..i];
      bbox[i] := val.value;
      assert bbox[..i] == filled;
    }
    assert FirstInvalid(parts, 0) == 4;
    assert bbox[..] == seq(4, i requires 0 <= i < 4 => ParseField(parts[i]).value);
    if bbox[0] > bbox[2] || bbox[1] > bbox[3] {
      return Err(Inverted);
    }
    return Ok(bbox[..]);
  }

  /** The comma-separated decimal form of a box. */
  function FormatBBox(b: seq<u32>): string
    requires |b| == 4
  {
    Join([FormatDecimal(b[0]), FormatDecimal(b[1]), FormatDecimal(b[2]), FormatDecimal(b[3])], ',')
  }

  /** Every well-ordered box survives formatting and parsing unchanged. */
  lemma ParseFormatBBox(b: seq<u32>)
    requires |b| == 4 && b[0] <= b[2] && b[1] <= b[3]
    ensures ParsedBBox(FormatBBox(b)) == Ok(b)
  {
    var fields := [FormatDecimal(b[0]), FormatDecimal(b[1]), FormatDecimal(b[2]), FormatDecimal(b[3])];
    forall i | 0 <= i < 4
      ensures ',' !in fields[i] && ParseField(fields[i]) == Ok(b[i])
    {
      assert AllDigits(fields[i]);
      TrimSpaceUnchanged(fields[i]);
      ParseFormatRoundTrip(b[i]);
    }
    SplitJoin(fields, ',');
    var r := ParsedBBox(FormatBBox(b));
    assert r.Ok? && |r.value| == 4;
    assert r.value == b;
  }

  // ---------------------------------------------------------------------
  // isTooBig and expandBounds

  /** `isTooBig`: the width or the height, computed in `uint32` arithmetic,
      exceeds `MaxBounds`. On a well-ordered box the subtraction cannot
      wrap, so this is the plain comparison of the extents. */
  function IsTooBig(b: seq<u32>): (tooBig: bool)
    requires |b| >= 4
    ensures b[0] <= b[2] && b[1] <= b[3] ==> (tooBig <==> b[2] - b[0] > MaxBounds || b[3] - b[1] > MaxBounds)
  {
    WrapSub(b[2], b[0]) > MaxBounds || WrapSub(b[3], b[1]) > MaxBounds
  }

  /** The threshold is strict: an extent of exactly 5 km is accepted, one
      metre more is not. */
  lemma TooBigThreshold(e: u32, n: u32)
    requires e <= TwoTo32 - 5002 && n <= TwoTo32 - 5002
    ensures !IsTooBig([e, n, e + 5000, n + 5000])
    ensures IsTooBig([e, n, e + 5001, n])
    ensures IsTooBig([e, n, e, n + 5001])
  {
  }

  /** The polygon handler's choice of repository target. */
  function TargetFor(tooBig: bool): (r: string)
    ensures r == "districts" <==> tooBig
    ensures r == "units" <==> !tooBig
    ensures r != [] && '/' !in r
  {
    if tooBig then "districts" else "units"
  }

  /** `expandBounds` as a value: the min corner moved down and the max corner
      up by `extendBy`, all in wrapping `uint32` arithmetic. */
  function Expanded(b: seq<u32>, extendBy: u32): (r: seq<u32>)
    requires |b| >= 4
    ensures |r| == |b| && r[4..] == b[4..]
    ensures extendBy == 0 ==> r == b
  {
    b[0 := WrapSub(b[0], extendBy)][1 := WrapSub(b[1], extendBy)]
     [2 := WrapAdd(b[2], extendBy)][3 := WrapAdd(b[3], extendBy)]
  }

  /** `expandBounds(&bbox, extendBy)`: moves the box's edges outwards in
      place, wrapping around as `uint32` does, and touches nothing else. */
  method ExpandBounds(b: array<u32>, extendBy: u32)
    requires b.Length >= 4
    modifies b
    ensures b[..] == Expanded(old(b[..]), extendBy)
    ensures forall i :: 4 <= i < b.Length ==> b[i] == old(b[i])
  {
    b[0] := WrapSub(b[0], extendBy);
    b[1] := WrapSub(b[1], extendBy);
    b[2] := WrapAdd(b[2], extendBy);
    b[3] := WrapAdd(b[3], extendBy);
  }

  /** Without wrap-around the expanded box is the box grown by `extendBy`
      on every side, so it contains every point of the original. */
  lemma ExpandedContainsOriginal(b: seq<u32>, extendBy: u32, p: CodePointIndex.Point)
    requires |b| == 4
    requires extendBy <= b[0] && extendBy <= b[1]
    requires b[2] + extendBy < TwoTo32 && b[3] + extendBy < TwoTo32
    ensures Expanded(b, extendBy) == [b[0] - extendBy, b[1] - extendBy, b[2] + extendBy, b[3] + extendBy]
    ensures CodePointIndex.InWindow(p, b) ==> CodePointIndex.InWindow(p, Expanded(b, extendBy))
  {
  }

  /** A unit-sized box that reaches within 100 m of either end of the
      `uint32` range wraps around when expanded: the expanded box is
      inverted and no point lies inside it. */
  lemma ExpansionNearRangeEndsSelectsNothing(b: seq<u32>, p: CodePointIndex.Point)
    requires |b| == 4 && b[0] <= b[2] && b[1] <= b[3] && !IsTooBig(b)
    requires b[0] < UnitsBoundsExpansion || b[1] < UnitsBoundsExpansion
          || b[2] + UnitsBoundsExpansion >= TwoTo32 || b[3] + UnitsBoundsExpansion >= TwoTo32
    ensures var e := Expanded(b, UnitsBoundsExpansion); e[0] > e[2] || e[1] > e[3]
    ensures !CodePointIndex.InWindow(p, Expanded(b, UnitsBoundsExpansion))
  {
  }

  /** The window a polygon query asks the index for: the box itself for a
      district-level query, the expanded box for a unit-level one. */
  function PlannedQuery(b: seq<u32>): (q: seq<u32>)
    requires |b| == 4
    ensures |q| == 4
    ensures IsTooBig(b) ==> q == b
    ensures !IsTooBig(b) ==> q == Expanded(b, UnitsBoundsExpansion)
  {
    if IsTooBig(b) then b else Expanded(b, UnitsBoundsExpansion)
  }

  // ---------------------------------------------------------------------
  // CodePointSearch

  /** `CodePointSearch`: a malformed or oversized box is a client error and
      the index is not consulted; an index error is an internal error;
      otherwise the index's results are the body. `query` is the bounds the
      index was asked for, if it was asked at all. */
  method CodePointSearch(bboxStr: string, search: seq<u32> -> Result<seq<CodePointIndex.CodePoint>, string>)
    returns (resp: Response<seq<CodePointIndex.CodePoint>>, query: Option<seq<u32>>)
    ensures ParsedBBox(bboxStr).Err? ==>
      resp == BadRequest(ParsedBBox(bboxStr).error.Message()) && query == None
    ensures ParsedBBox(bboxStr).Ok? && IsTooBig(ParsedBBox(bboxStr).value) ==>
      resp == BadRequest(TooLargeMessage) && query == None
    ensures ParsedBBox(bboxStr).Ok? && !IsTooBig(ParsedBBox(bboxStr).value) ==>
      && query == Some(ParsedBBox(bboxStr).value)
      && resp == match search(query.value)
                 case Err(_) => InternalError
                 case Ok(results) => Success(results)
  {
    var bbox := ParseBBox(bboxStr);
    if bbox.Err? {
      return BadRequest(bbox.error.Message()), None;
    }
    if IsTooBig(bbox.value) {
      return BadRequest(TooLargeMessage), None;
    }
    query := Some(bbox.value);
    var results := search(bbox.value);
    if results.Err? {
      return InternalError, query;
    }
    resp := Success(results.value);
  }

  /** A box wider or taller than 5 km never reaches the index, whatever it
      holds: the extents of a parsed box are its plain differences. */
  lemma OversizedBoxIsRejected(bboxStr: string)
    requires ParsedBBox(bboxStr).Ok?
    requires var b := ParsedBBox(bboxStr).value; b[2] - b[0] > MaxBounds || b[3] - b[1] > MaxBounds
    ensures IsTooBig(ParsedBBox(bboxStr).value)
  {
  }

  // ---------------------------------------------------------------------
  // PolygonSearch

  /** `strings.Split(postcode, " ")[0]`: the district of a postcode. */
  function District(postcode: string): (d: string)
    ensures d <= postcode && ' ' !in d
    ensures |d| < |postcode| ==> postcode[|d|] == ' '
  {
    Split(postcode, ' ')[0]
  }

  /** The districts of the visited postcodes. */
  function Districts(visited: seq<string>): set<string>
  {
    set pc | pc in visited :: District(pc)
  }

  /** The identifiers a feature must carry to be kept: districts for a
      district-level query, full postcodes otherwise. */
  function Requested(visited: seq<string>, tooBig: bool): set<string>
  {
    if tooBig then Districts(visited) else set pc | pc in visited
  }

  /** A district-level query only requests space-free district codes. */
  lemma CoarseQueryRequestsDistricts(visited: seq<string>)
    ensures forall r :: r in Requested(visited, true) ==> ' ' !in r
    ensures forall pc :: pc in visited ==> District(pc) in Requested(visited, true)
  {
  }

  /** The visitor passed to `SearchIter`, run over the visited postcodes in
      turn: it records each postcode's district and the identifier to
      request. */
  method ResolveUnits(visited: seq<string>, tooBig: bool) returns (districts: set<string>, requested: set<string>)
    ensures districts == Districts(visited)
    ensures requested == Requested(visited, tooBig)
    ensures visited == [] ==> districts == {} && requested == {}
  {
    districts, requested := {}, {};
    for i := 0 to |visited|
      invariant districts == Districts(visited[..i])
      invariant requested == Requested(visited[..i], tooBig)
    {
      var postcode := visited[i];
      assert visited[..i + 1] == visited[..i] + [postcode];
      var district := District(postcode);
      districts := districts + {district};
      if tooBig {
        requested := requested + {district};
      } else {
        requested := requested + {postcode};
      }
    }
    assert visited[..|visited|] == visited;
  }

  /** What `RetrieveFeatureCollection(target, district)` can give: the
      file's features, a "file does not exist" error, or any other error. */
  datatype RepoResult = Loaded(features: seq<Feature>) | NotExist | Failed(message: string)

  /** The file the repository reads for a district. */
  function RepoPath(target: string, district: string): string
  {
    "./data/postcodes/" + target + "/" + district + ".geojson.bz2"
  }

  /** Every level and district has a file of its own: two repository paths
      with single-component targets are equal only for the same target and
      the same district. */
  lemma RepoPathIsInjective(t1: string, d1: string, t2: string, d2: string)
    requires '/' !in t1 && '/' !in t2
    ensures RepoPath(t1, d1) == RepoPath(t2, d2) <==> t1 == t2 && d1 == d2
  {
    if RepoPath(t1, d1) == RepoPath(t2, d2) {
      var r1 := t1 + "/" + d1 + ".geojson.bz2";
      var r2 := t2 + "/" + d2 + ".geojson.bz2";
      assert RepoPath(t1, d1) == "./data/postcodes/" + r1;
      assert RepoPath(t2, d2) == "./data/postcodes/" + r2;
      assert r1 == RepoPath(t1, d1)[17..] == r2;
      SlashEndsTarget(t1, r1, d1);
      SlashEndsTarget(t2, r2, d2);
      assert |t1| == |t2|;
      assert t1 == r1[..|t1|] == t2;
      assert d1 == r1[|t1| + 1..|r1| - 12] == d2;
    }
  }

  /** In `t/d.geojson.bz2` the target is the part before the first `/`. */
  lemma SlashEndsTarget(t: string, r: string, d: string)
    requires r == t + "/" + d + ".geojson.bz2"
    requires '/' !in t
    ensures r[..|t|] == t && r[|t|] == '/'
    ensures forall j :: 0 <= j < |t| ==> r[j] != '/'
    ensures r[|t| + 1..|r| - 12] == d
  {
  }

  predicate AllStringIds(features: seq<Feature>)
  {
    forall i :: 0 <= i < |features| ==> features[i].id.Str?
  }

  /** The features of one collection whose identifier is requested, in order. */
  function Kept(features: seq<Feature>, requested: set<string>): (r: seq<Feature>)
    ensures |r| <= |features|
    ensures forall i :: 0 <= i < |r| ==> r[i].id.Str? && r[i].id.str in requested
  {
    if features == [] then []
    else
      var f := features[|features| - 1];
      Kept(features[..|features| - 1], requested) + (if f.id.Str? && f.id.str in requested then [f] else [])
  }

  lemma {:induction false} KeptMembership(features: seq<Feature>, requested: set<string>, f: Feature)
    ensures f in Kept(features, requested) <==> f in features && f.id.Str? && f.id.str in requested
  {
    if features != [] {
      assert features == features[..|features| - 1] + [features[|features| - 1]];
      KeptMembership(features[..|features| - 1], requested, f);
    }
  }

  /** The filter works feature by feature and keeps their order: filtering
      a concatenation filters each part, and one feature is kept alone or
      dropped by its identifier alone. */
  lemma {:induction false} KeptAppend(a: seq<Feature>, b: seq<Feature>, requested: set<string>)
    ensures Kept(a + b, requested) == Kept(a, requested) + Kept(b, requested)
    decreases |b|
  {
    if b == [] {
      assert a + b == a;
    } else {
      var init := b[..|b| - 1];
      KeptAppend(a, init, requested);
      assert (a + b)[..|a + b| - 1] == a + init;
    }
  }

  lemma KeptSingle(f: Feature, requested: set<string>)
    ensures Kept([f], requested) == if f.id.Str? && f.id.str in requested then [f] else []
  {
    assert [f][..0] == [];
  }

  /** The filter keeps the collection's order: when every identifier is
      requested, nothing is dropped or moved. */
  lemma {:induction false} KeptAllRequested(features: seq<Feature>, requested: set<string>)
    requires forall i :: 0 <= i < |features| ==> features[i].id.Str? && features[i].id.str in requested
    ensures Kept(features, requested) == features
  {
    if features != [] {
      KeptAllRequested(features[..|features| - 1], requested);
      assert features == features[..|features| - 1] + [features[|features| - 1]];
    }
  }

  /** A repository answer that aborts the query: an error other than a
      missing file, or a feature whose identifier is not a string (the type
      assertion panics, and gin's recovery middleware answers 500). */
  predicate Broken(r: RepoResult)
  {
    r.Failed? || (r.Loaded? && !AllStringIds(r.features))
  }

  /** What one district contributes: nothing for a missing file, the kept
      features of a loaded one, and `None` when it aborts the query. */
  function Contribution(r: RepoResult, requested: set<string>): (c: Option<seq<Feature>>)
    ensures c.None? <==> Broken(r)
  {
    match r
    case NotExist => Some([])
    case Failed(_) => None
    case Loaded(features) => if AllStringIds(features) then Some(Kept(features, requested)) else None
  }

  /** The features collected over the districts in the order `order`, or
      `None` when one of them aborts the query. */
  function Collected(order: seq<string>, target: string, repo: (string, string) -> RepoResult,
                     requested: set<string>): Option<seq<Feature>>
  {
    if order == [] then Some([])
    else
      var prev := Collected(order[..|order| - 1], target, repo, requested);
      var step := Contribution(repo(target, order[|order| - 1]), requested);
      if prev.None? || step.None? then None else Some(prev.value + step.value)
  }

  /** Collection aborts iff some district's answer is broken: a missing file
      is skipped, any other error fails the whole query. */
  lemma {:induction false} CollectedFailsIffBroken(order: seq<string>, target: string,
                                                   repo: (string, string) -> RepoResult, requested: set<string>)
    ensures Collected(order, target, repo, requested).None? <==>
      exists i :: 0 <= i < |order| && Broken(repo(target, order[i]))
  {
    if order != [] {
      var init := order[..|order| - 1];
      CollectedFailsIffBroken(init, target, repo, requested);
      assert forall i :: 0 <= i < |init| ==> init[i] == order[i];
    }
  }

  /** Collection keeps the order of the districts: collecting two runs of
      districts one after the other concatenates their collections, and
      fails iff either fails. */
  lemma {:induction false} CollectedAppend(o1: seq<string>, o2: seq<string>, target: string,
                                           repo: (string, string) -> RepoResult, requested: set<string>)
    ensures var c1 := Collected(o1, target, repo, requested);
      var c2 := Collected(o2, target, repo, requested);
      Collected(o1 + o2, target, repo, requested) ==
        if c1.Some? && c2.Some? then Some(c1.value + c2.value) else None
    decreases |o2|
  {
    if o2 == [] {
      assert o1 + o2 == o1;
      var c1 := Collected(o1, target, repo, requested);
      if c1.Some? {
        assert c1.value + [] == c1.value;
      }
    } else {
      var init := o2[..|o2| - 1];
      CollectedAppend(o1, init, target, repo, requested);
      assert (o1 + o2)[..|o1 + o2| - 1] == o1 + init;
      assert (o1 + o2)[|o1 + o2| - 1] == o2[|o2| - 1];
      var c1 := Collected(o1, target, repo, requested);
      var ci := Collected(init, target, repo, requested);
      var step := Contribution(repo(target, o2[|o2| - 1]), requested);
      assert Collected(o2, target, repo, requested) ==
        if ci.None? || step.None? then None else Some(ci.value + step.value);
      if c1.Some? && ci.Some? && step.Some? {
        assert (c1.value + ci.value) + step.value == c1.value + (ci.value + step.value);
      }
    }
  }

  /** One district alone collects its own contribution. */
  lemma CollectedSingle(d: string, target: string, repo: (string, string) -> RepoResult, requested: set<string>)
    ensures Collected([d], target, repo, requested) == Contribution(repo(target, d), requested)
  {
    assert [d][..0] == [];
    var c := Contribution(repo(target, d), requested);
    if c.Some? {
      assert [] + c.value == c.value;
    }
  }

  /** A successful collection holds exactly the loaded features whose
      identifier is requested. */
  lemma {:induction false} CollectedMembership(order: seq<string>, target: string,
                                               repo: (string, string) -> RepoResult, requested: set<string>, f: Feature)
    requires Collected(order, target, repo, requested).Some?
    ensures f in Collected(order, target, repo, requested).value <==>
      exists i :: 0 <= i < |order| && repo(target, order[i]).Loaded?
        && f in repo(target, order[i]).features && f.id.Str? && f.id.str in requested
  {
    if order != [] {
      var init := order[..|order| - 1];
      var last := repo(target, order[|order| - 1]);
      CollectedMembership(init, target, repo, requested, f);
      assert forall i :: 0 <= i < |init| ==> init[i] == order[i];
      if last.Loaded? {
        KeptMembership(last.features, requested, f);
      }
    }
  }

  /** No district is asked for twice. */
  predicate Distinct(order: seq<string>)
  {
    forall i, j :: 0 <= i < j < |order| ==> order[i] != order[j]
  }

  /** `order` lists every element of `s` exactly once. */
  ghost predicate EnumeratesOnce(order: seq<string>, s: set<string>)
  {
    && (forall d :: d in order <==> d in s)
    && Distinct(order)
  }

  /** The districts were asked for up to and including the first broken one:
      the last answer aborts the query and none before it does. */
  predicate StoppedAtFirstBroken(order: seq<string>, target: string, repo: (string, string) -> RepoResult)
  {
    && order != []
    && Broken(repo(target, order[|order| - 1]))
    && (forall i :: 0 <= i < |order| - 1 ==> !Broken(repo(target, order[i])))
  }

  /** The handler's loop over one collection's features: appends to `out`
      those whose identifier is requested, and fails (the `feature.ID.(string)`
      assertion panics) at the first identifier that is not a string. */
  method AppendRequested(out: seq<Feature>, features: seq<Feature>, requested: set<string>)
    returns (r: Option<seq<Feature>>)
    ensures r.Some? <==> AllStringIds(features)
    ensures r.Some? ==> r.value == out + Kept(features, requested)
  {
    var acc := out;
    for j := 0 to |features|
      invariant AllStringIds(features[..j])
      invariant acc == out + Kept(features[..j], requested)
    {
      var feature := features[j];
      assert features[..j + 1][..j] == features[..j];
      if !feature.id.Str? {
        return None;
      }
      if feature.id.str in requested {
        acc := acc + [feature];
      }
    }
    assert features[..|features|] == features;
    return Some(acc);
  }

  /** The handler's loop over the districts, in the unspecified order of Go's
      map iteration: skips missing files, stops at the first other error, and
      appends each loaded collection's requested features. `fetched` lists
      the districts asked of the repository, in order. */
  method CollectFeatures(districts: set<string>, requested: set<string>, target: string,
                         repo: (string, string) -> RepoResult)
    returns (features: Option<seq<Feature>>, fetched: seq<string>)
    ensures features.None? <==> exists d :: d in districts && Broken(repo(target, d))
    ensures features.Some? ==> EnumeratesOnce(fetched, districts)
    ensures features.Some? ==> features == Collected(fetched, target, repo, requested)
    ensures features.None? ==> StoppedAtFirstBroken(fetched, target, repo)
    ensures forall d :: d in fetched ==> d in districts
    ensures Distinct(fetched)
    ensures districts == {} ==> features == Some([]) && fetched == []
  {
    var out: seq<Feature> := [];
    var remaining := districts;
    fetched := [];
    while remaining != {}
      invariant remaining <= districts
      invariant |fetched| + |remaining| == |districts|
      invariant forall d :: d in fetched ==> d in districts && d !in remaining
      invariant forall d :: d in districts ==> d in remaining || d in fetched
      invariant forall i, j :: 0 <= i < j < |fetched| ==> fetched[i] != fetched[j]
      invariant Collected(fetched, target, repo, requested) == Some(out)
      decreases remaining
    {
      var district :| district in remaining;
      ghost var before := fetched;
      CollectedFailsIffBroken(before, target, repo, requested);
      fetched := fetched + [district];
      assert fetched[..|fetched| - 1] == before;
      remaining := remaining - {district};
      var fc := repo(target, district);
      if fc.NotExist? {
        assert out + [] == out;
        continue;
      }
      if fc.Failed? {
        return None, fetched;
      }
      var appended := AppendRequested(out, fc.features, requested);
      if appended.None? {
        return None, fetched;
      }
      out := appended.value;
    }
    CollectedFailsIffBroken(fetched, target, repo, requested);
    features := Some(out);
  }

  /** `PolygonSearch`: parses the box, chooses districts or units by its
      size, expands a unit-level box, resolves the visited postcodes to
      districts and requested identifiers, and collects the matching
      features district by district. `query` is the window the index was
      asked for and `fetched` the districts asked of the repository. */
  method PolygonSearch(bboxStr: string, searchIter: seq<u32> -> Result<seq<string>, string>,
                       repo: (string, string) -> RepoResult)
    returns (resp: Response<seq<Feature>>, query: Option<seq<u32>>, fetched: seq<string>)
    ensures ParsedBBox(bboxStr).Err? ==>
      resp == BadRequest(ParsedBBox(bboxStr).error.Message()) && query == None && fetched == []
    ensures ParsedBBox(bboxStr).Ok? ==> query == Some(PlannedQuery(ParsedBBox(bboxStr).value))
    ensures query.Some? && searchIter(query.value).Err? ==> resp == InternalError && fetched == []
    ensures query.Some? && searchIter(query.value).Ok? ==>
      var tooBig := IsTooBig(ParsedBBox(bboxStr).value);
      var visited := searchIter(query.value).value;
      var target := TargetFor(tooBig);
      && (resp.InternalError? <==> exists d :: d in Districts(visited) && Broken(repo(target, d)))
      && (resp.Success? ==> EnumeratesOnce(fetched, Districts(visited)))
      && (resp.InternalError? ==>
            StoppedAtFirstBroken(fetched, target, repo) && (forall d :: d in fetched ==> d in Districts(visited)))
      && Distinct(fetched)
      && (resp.Success? ==> Collected(fetched, target, repo, Requested(visited, tooBig)) == Some(resp.body))
      && !resp.BadRequest?
      && (visited == [] ==> resp == Success([]) && fetched == [])
  {
    var parsed := ParseBBox(bboxStr);
    if parsed.Err? {
      return BadRequest(parsed.error.Message()), None, [];
    }
    var tooBig := IsTooBig(parsed.value);
    var target := TargetFor(tooBig);
    var bbox := new u32[4];
    bbox[0], bbox[1], bbox[2], bbox[3] := parsed.value[0], parsed.value[1], parsed.value[2], parsed.value[3];
    assert bbox[..] == parsed.value;
    if target == "units" {
      ExpandBounds(bbox, UnitsBoundsExpansion);
    }
    query := Some(bbox[..]);
    var visited := searchIter(bbox[..]);
    if visited.Err? {
      return InternalError, query, [];
    }
    var districts, requested := ResolveUnits(visited.value, tooBig);
    var features;
    features, fetched := CollectFeatures(districts, requested, target, repo);
    if features.None? {
      return InternalError, query, fetched;
    }
    resp := Success(features.value);
  }
}
