/** The preprocessing step of cmd/extract_data.go: it classifies the entries
    of the boundary archive, rewrites the features of each selected GeoJSON
    file in place so that they can be served by identifier, and names the
    compressed file each one is written to. */
module ExtractData {
  import opened Basics
  import opened GoStrings
  import opened Features
  import Routes

  /** `tar.TypeReg`, the type flag of a regular file. */
  const TypeReg: char := '0'

  /** The part of a `tar.Header` the step looks at. */
  datatype TarHeader = TarHeader(name: string, typeflag: char)

  const UnitsDir: string := "gb-postcodes-v5/units"
  const DistrictsDir: string := "gb-postcodes-v5/districts"

  /** `extractFileType`: the file type and the identifying property of an
      archive entry, or `("", "")` for an entry that is skipped. */
  function ExtractFileType(h: TarHeader): (r: (string, string))
    ensures h.typeflag != TypeReg ==> r == ("", "")
    ensures h.typeflag == TypeReg && HasPrefix(h.name, UnitsDir + "/") ==> r == ("unit", "postcodes")
    ensures h.typeflag == TypeReg && HasPrefix(h.name, DistrictsDir + "/") ==> r == ("district", "district")
    ensures r.0 == "" <==> r.1 == ""
    ensures r.0 != "" <==>
      h.typeflag == TypeReg && (HasPrefix(h.name, UnitsDir + "/") || HasPrefix(h.name, DistrictsDir + "/"))
    ensures r.0 != "" ==> h.name != [] && h.name[0] != '/'
  {
    PrefixesAreDisjoint(h.name);
    if h.typeflag != TypeReg then ("", "")
    else if HasPrefix(h.name, UnitsDir + "/") then ("unit", "postcodes")
    else if HasPrefix(h.name, DistrictsDir + "/") then ("district", "district")
    else ("", "")
  }

  /** The two prefixes exclude each other, so the order of the tests in
      `ExtractFileType` does not matter. */
  lemma PrefixesAreDisjoint(name: string)
    ensures HasPrefix(name, UnitsDir + "/") ==> !HasPrefix(name, DistrictsDir + "/")
  {
    if HasPrefix(name, UnitsDir + "/") {
      assert name[16] == (UnitsDir + "/")[16];
    }
  }

  /** Where a processed entry is written: `./data/postcodes/<type>s/<base>.bz2`. */
  function OutputPath(fileType: string, name: string): (r: string)
    ensures HasPrefix(r, "./data/postcodes/" + fileType + "s/")
    ensures '/' !in r[|"./data/postcodes/" + fileType + "s/"|..] || Base(name) == "/"
    ensures name != [] && name[0] != '/' ==> '/' !in r[|"./data/postcodes/" + fileType + "s/"|..]
  {
    BaseOfRelativePath(name);
    "./data/postcodes/" + fileType + "s/" + Base(name) + ".bz2"
  }

  /** The entry `<dir>/<district>.geojson` of type `t` is written to the
      file the polygon repository reads for `district` under target `<t>s`. */
  lemma OutputPathOfEntry(fileType: string, dir: string, district: string)
    requires district != [] && '/' !in district
    ensures OutputPath(fileType, dir + "/" + district + ".geojson") == Routes.RepoPath(fileType + "s", district)
  {
    var file := district + ".geojson";
    assert '/' !in file by {
      assert forall i :: 0 <= i < |".geojson"| ==> ".geojson"[i] != '/';
    }
    assert dir + "/" + district + ".geojson" == dir + "/" + file;
    BaseOfJoined(dir, file);
    assert fileType + "s/" == (fileType + "s") + "/";
    assert file + ".bz2" == district + ".geojson.bz2";
  }

  /** A processed `<dir>/<district>.geojson` entry lands exactly where the
      polygon repository looks for that district's collection, under the
      target the search handler picks for its level. */
  lemma OutputIsServed(h: TarHeader, district: string, tooBig: bool)
    requires district != [] && '/' !in district
    requires h.typeflag == TypeReg
    requires h.name == (if tooBig then DistrictsDir else UnitsDir) + "/" + district + ".geojson"
    ensures ExtractFileType(h).0 == (if tooBig then "district" else "unit")
    ensures OutputPath(ExtractFileType(h).0, h.name) == Routes.RepoPath(Routes.TargetFor(tooBig), district)
  {
    var fileType := if tooBig then "district" else "unit";
    EntryFileType(h, district, tooBig);
    OutputPathOfEntry(fileType, if tooBig then DistrictsDir else UnitsDir, district);
    assert fileType + "s" == Routes.TargetFor(tooBig);
  }

  /** A regular `<dir>/<district>.geojson` entry is classified by its directory. */
  lemma EntryFileType(h: TarHeader, district: string, tooBig: bool)
    requires h.typeflag == TypeReg
    requires h.name == (if tooBig then DistrictsDir else UnitsDir) + "/" + district + ".geojson"
    ensures ExtractFileType(h).0 == (if tooBig then "district" else "unit")
  {
    if tooBig {
      EntryIsClassified(h, DistrictsDir, district);
    } else {
      EntryIsClassified(h, UnitsDir, district);
    }
  }

  /** An entry named `<dir>/<district>.geojson` has the prefix `<dir>/`. */
  lemma EntryIsClassified(h: TarHeader, dir: string, district: string)
    requires h.name == dir + "/" + district + ".geojson"
    ensures HasPrefix(h.name, dir + "/")
  {
    assert h.name == (dir + "/") + (district + ".geojson");
  }

  /** The error `reprocessFeatureCollection` returns for a feature without
      a string `propName` property. */
  function MissingPropertyMessage(propName: string): string
  {
    "missing or invalid '" + propName + "' property in feature"
  }

  /** Index of the first feature from `from` on without a string `name`
      property, or `|features|`. */
  function FirstMissing(features: seq<Feature>, name: string, from: nat): (k: nat)
    requires from <= |features|
    ensures from <= k <= |features|
    ensures forall i :: from <= i < k ==> HasStringProperty(features[i], name)
    ensures k < |features| ==> !HasStringProperty(features[k], name)
    decreases |features| - from
  {
    if from == |features| || !HasStringProperty(features[from], name) then from
    else FirstMissing(features, name, from + 1)
  }

  /** One feature after the loop body of `reprocessFeatureCollection`. */
  function Rewritten(f: Feature, fileType: string, propName: string, truncate: Geometry -> Geometry): (g: Feature)
    requires HasStringProperty(f, propName)
    ensures g.id == f.properties[propName] && g.id.Str?
    ensures propName !in g.properties && "mapit_code" !in g.properties
  {
    Feature(f.properties[propName], f.properties["type" := Str(fileType)] - {"mapit_code", propName},
            truncate(f.geometry))
  }

  /** What the rewrite does to one feature: the identifier becomes the
      former `propName` value, `"type"` holds the file type, `"mapit_code"`
      and `propName` are gone, every other property is kept as it was, and
      the geometry is truncated. */
  lemma RewrittenMeaning(f: Feature, fileType: string, propName: string, truncate: Geometry -> Geometry)
    requires HasStringProperty(f, propName) && propName != "type"
    ensures var g := Rewritten(f, fileType, propName, truncate);
      && g.id == f.properties[propName] && g.id.Str?
      && "type" in g.properties && g.properties["type"] == Str(fileType)
      && "mapit_code" !in g.properties && propName !in g.properties
      && (forall k :: k != "type" && k != "mapit_code" && k != propName ==>
            (k in g.properties <==> k in f.properties)
            && (k in g.properties ==> g.properties[k] == f.properties[k]))
      && g.geometry == truncate(f.geometry)
  {
  }

  /** The collection after `reprocessFeatureCollection`: the features
      before the first one without a string `propName` property rewritten,
      the rest as they were. */
  function Reprocessed(features: seq<Feature>, fileType: string, propName: string,
                       truncate: Geometry -> Geometry): (r: seq<Feature>)
    ensures |r| == |features|
  {
    var k := FirstMissing(features, propName, 0);
    seq(|features|, i requires 0 <= i < |features| =>
      if i < k then Rewritten(features[i], fileType, propName, truncate) else features[i])
  }

  /** On success every feature is rewritten, so the collection's identifiers
      are all strings: a file produced by this step never makes the polygon
      search fail on an identifier. */
  lemma ReprocessedIdsAreStrings(features: seq<Feature>, fileType: string, propName: string,
                                 truncate: Geometry -> Geometry)
    requires forall i :: 0 <= i < |features| ==> HasStringProperty(features[i], propName)
    ensures Routes.AllStringIds(Reprocessed(features, fileType, propName, truncate))
    ensures forall i :: 0 <= i < |features| ==>
      Reprocessed(features, fileType, propName, truncate)[i].id == features[i].properties[propName]
  {
    assert FirstMissing(features, propName, 0) == |features|;
  }

  /** `reprocessFeatureCollection`: rewrites the features in order and in
      place, and stops at the first one without a string `propName`
      property, leaving it and the ones after it untouched. */
  method ReprocessFeatureCollection(fileType: string, propName: string, features: array<Feature>,
                                    truncate: Geometry -> Geometry)
    returns (err: Option<string>)
    modifies features
    ensures err.None? <==> forall i :: 0 <= i < features.Length ==> HasStringProperty(old(features[i]), propName)
    ensures err.Some? ==> err.value == MissingPropertyMessage(propName)
    ensures features[..] == Reprocessed(old(features[..]), fileType, propName, truncate)
  {
    ghost var original := features[..];
    ghost var k := FirstMissing(original, propName, 0);
    for i := 0 to features.Length
      invariant i <= k
      invariant forall j :: 0 <= j < i ==> features[j] == Rewritten(original[j], fileType, propName, truncate)
      invariant forall j :: i <= j < features.Length ==> features[j] == original[j]
    {
      var feature := features[i];
      if !HasStringProperty(feature, propName) {
        assert features[..] == Reprocessed(original, fileType, propName, truncate);
        return Some(MissingPropertyMessage(propName));
      }
      var id := feature.properties[propName];
      var properties := feature.properties["type" := Str(fileType)];
      var geometry := truncate(feature.geometry);
      properties := properties - {"mapit_code"};
      properties := properties - {propName};
      features[i] := Feature(id, properties, geometry);
    }
    assert features[..] == Reprocessed(original, fileType, propName, truncate);
    return None;
  }
}
