/** The older preprocessing step of extraction/postcode_compressor.go: it
    takes only the unit files of the archive, renames each feature's
    `"postcodes"` property to `"postcode"` and drops `"mapit_code"`, and
    writes the result straight under `./data/postcodes/`. */
module Compressor {
  import opened Basics
  import opened GoStrings
  import opened Features
  import ExtractData
  import Routes

  /** The entry filter of `Extract`: regular files under the units directory. */
  predicate Selects(h: ExtractData.TarHeader): (r: bool)
    ensures r ==> h.typeflag == ExtractData.TypeReg && !HasPrefix(h.name, ExtractData.DistrictsDir + "/")
    ensures r ==> h.name != [] && h.name[0] != '/'
  {
    ExtractData.PrefixesAreDisjoint(h.name);
    h.typeflag == ExtractData.TypeReg && HasPrefix(h.name, ExtractData.UnitsDir + "/")
  }

  /** The legacy filter takes exactly the entries the newer step classifies
      as unit files, and none of its district files. */
  lemma SelectsExactlyUnits(h: ExtractData.TarHeader)
    ensures Selects(h) <==> ExtractData.ExtractFileType(h) == ("unit", "postcodes")
    ensures Selects(h) ==> ExtractData.ExtractFileType(h).0 != "district"
  {
  }

  /** Where `Extract` writes a processed entry: `./data/postcodes/<base>.bz2`. */
  function OutputPath(name: string): (r: string)
    ensures HasPrefix(r, "./data/postcodes/")
    ensures '/' !in r[|"./data/postcodes/"|..] || Base(name) == "/"
    ensures name != [] && name[0] != '/' ==> '/' !in r[|"./data/postcodes/"|..]
  {
    BaseOfRelativePath(name);
    "./data/postcodes/" + Base(name) + ".bz2"
  }

  /** The legacy output is never a file the polygon repository reads: it sits
      directly in `./data/postcodes/`, while every repository path has a
      target directory in between. */
  lemma OutputIsNotServed(name: string, target: string, district: string)
    requires target != [] && '/' !in target
    ensures OutputPath(name) != Routes.RepoPath(target, district)
  {
    var prefix := "./data/postcodes/";
    var legacyRest := Base(name) + ".bz2";
    var repoRest := target + "/" + district + ".geojson.bz2";
    assert OutputPath(name) == prefix + legacyRest;
    assert Routes.RepoPath(target, district) == prefix + repoRest;
    DropPrefix(prefix, legacyRest);
    DropPrefix(prefix, repoRest);
    assert repoRest[|target|] == '/';
    if Base(name) == "/" {
      assert legacyRest[0] == '/';
      assert repoRest[0] == target[0] != '/';
    } else {
      assert '/' !in legacyRest by {
        assert forall i :: 0 <= i < |".bz2"| ==> ".bz2"[i] != '/';
      }
      SlashSeparates(legacyRest, repoRest, |target|);
    }
  }

  lemma DropPrefix(p: string, a: string)
    ensures (p + a)[|p|..] == a
  {
  }

  /** A string without `/` differs from one that has a `/`. */
  lemma SlashSeparates(a: string, b: string, j: nat)
    requires '/' !in a && j < |b| && b[j] == '/'
    ensures a != b
  {
  }

  /** Why `reprocessFile` refused a feature: its `"postcodes"` property is
      missing or not a string. The feature's identifier is reported. */
  datatype ReprocessError = MissingPostcodes(id: Value)

  /** One feature after the loop body of `reprocessFile`. */
  function Renamed(f: Feature, truncate: Geometry -> Geometry): (g: Feature)
    requires HasStringProperty(f, "postcodes")
    ensures HasStringProperty(g, "postcode") && g.properties["postcode"] == f.properties["postcodes"]
    ensures "postcodes" !in g.properties && "mapit_code" !in g.properties && g.id == f.id
  {
    Feature(f.id, (f.properties - {"mapit_code", "postcodes"})["postcode" := f.properties["postcodes"]],
            truncate(f.geometry))
  }

  /** What the rename does to one feature: `"postcode"` holds the former
      `"postcodes"` value, `"postcodes"` and `"mapit_code"` are gone, every
      other property is kept, the identifier is unchanged and the geometry is
      truncated. */
  lemma RenamedMeaning(f: Feature, truncate: Geometry -> Geometry)
    requires HasStringProperty(f, "postcodes")
    ensures var g := Renamed(f, truncate);
      && "postcode" in g.properties && g.properties["postcode"] == f.properties["postcodes"]
      && g.properties["postcode"].Str?
      && "postcodes" !in g.properties && "mapit_code" !in g.properties
      && (forall k :: k != "postcode" && k != "postcodes" && k != "mapit_code" ==>
            (k in g.properties <==> k in f.properties)
            && (k in g.properties ==> g.properties[k] == f.properties[k]))
      && g.id == f.id && g.geometry == truncate(f.geometry)
  {
  }

  /** The collection after `reprocessFile`: the features before the first one
      without a string `"postcodes"` property renamed, the rest as they were. */
  function Reprocessed(features: seq<Feature>, truncate: Geometry -> Geometry): (r: seq<Feature>)
    ensures |r| == |features|
  {
    var k := ExtractData.FirstMissing(features, "postcodes", 0);
    seq(|features|, i requires 0 <= i < |features| =>
      if i < k then Renamed(features[i], truncate) else features[i])
  }

  /** On success every feature carries its postcode under the new key, and
      a second pass would fail: the `"postcodes"` key is gone everywhere. */
  lemma ReprocessedCarriesPostcode(features: seq<Feature>, truncate: Geometry -> Geometry)
    requires forall i :: 0 <= i < |features| ==> HasStringProperty(features[i], "postcodes")
    ensures forall i :: 0 <= i < |features| ==>
      && HasStringProperty(Reprocessed(features, truncate)[i], "postcode")
      && Reprocessed(features, truncate)[i].properties["postcode"] == features[i].properties["postcodes"]
    ensures features != [] ==> ExtractData.FirstMissing(Reprocessed(features, truncate), "postcodes", 0) == 0
  {
    assert ExtractData.FirstMissing(features, "postcodes", 0) == |features|;
  }

  /** The loop body of `reprocessFile` for one feature: moves `"postcodes"`
      to `"postcode"`, drops `"mapit_code"` and truncates the geometry. */
  method RenameFeature(feature: Feature, truncate: Geometry -> Geometry) returns (g: Feature)
    requires HasStringProperty(feature, "postcodes")
    ensures g == Renamed(feature, truncate)
  {
    var postcode := feature.properties["postcodes"];
    var geometry := truncate(feature.geometry);
    var properties := feature.properties - {"mapit_code"};
    properties := properties - {"postcodes"};
    properties := properties["postcode" := postcode];
    g := Feature(feature.id, properties, geometry);
  }

  /** The property loop of `reprocessFile`: renames the features in order and
      in place, and stops at the first one without a string `"postcodes"`
      property, reporting its identifier. */
  method ReprocessFile(features: array<Feature>, truncate: Geometry -> Geometry)
    returns (err: Option<ReprocessError>)
    modifies features
    ensures err.None? <==> forall i :: 0 <= i < features.Length ==> HasStringProperty(old(features[i]), "postcodes")
    ensures err.Some? ==>
      var k := ExtractData.FirstMissing(old(features[..]), "postcodes", 0);
      k < features.Length && err.value == MissingPostcodes(old(features[k]).id)
    ensures features[..] == Reprocessed(old(features[..]), truncate)
  {
    ghost var original := features[..];
    ghost var k := ExtractData.FirstMissing(original, "postcodes", 0);
    ghost var result := Reprocessed(original, truncate);
    for i := 0 to features.Length
      invariant i <= k
      invariant forall j :: 0 <= j < i ==> features[j] == result[j]
      invariant forall j :: i <= j < features.Length ==> features[j] == original[j]
    {
      var feature := features[i];
      if !HasStringProperty(feature, "postcodes") {
        assert feature == original[i];
        assert i == k;
        assert features[..] == result;
        return Some(MissingPostcodes(feature.id));
      }
      features[i] := RenameFeature(feature, truncate);
    }
    assert features[..] == result;
    return None;
  }
}
