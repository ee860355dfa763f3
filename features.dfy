/** GeoJSON features as the core sees them: an identifier, a property map
    and a geometry that is kept opaque. */
module Features {

  /** A JSON value held in a feature's identifier or properties: null, a
      string, or any other JSON value kept as its encoding. */
  datatype Value = Null | Str(str: string) | Other(encoded: string)

  /** A feature's geometry; its coordinates are not modelled. */
  datatype Geometry = Geometry(encoded: string)

  datatype Feature = Feature(id: Value, properties: map<string, Value>, geometry: Geometry)

  /** `feature.Properties[name].(string)` succeeds: the key is present and
      holds a string (a missing key reads as nil and fails the assertion). */
  predicate HasStringProperty(f: Feature, name: string)
  {
    name in f.properties && f.properties[name].Str?
  }
}
