/** Feature representations of src/feature.rs: the raw `FeatureJson` form built from a
    wire feature, its defaults, and the `Command` enum of the resolved form. */
module Features {
  import opened Base
  import opened GeometryTypes
  import VectorTile

  /** One drawing command of a feature's geometry; the deltas are signed 64-bit
      integers and `ClosePath` carries nothing. */
  datatype Command = MoveTo(dx: i64, dy: i64) | LineTo(dx: i64, dy: i64) | ClosePath

  /** The raw form of a feature: its tag and geometry integers as they came. */
  datatype FeatureJson = FeatureJson(id: u64, tags: seq<u32>, gtype: GeometryType, geometry: seq<u32>)

  /** `FeatureJson::new`: copies id, tags and geometry and decodes the geometry type. */
  function NewFeatureJson(f: VectorTile.ProtoFeature): (r: FeatureJson)
    ensures r.id == f.id && r.tags == f.tags && r.geometry == f.geometry
    ensures Code(r.gtype) == VectorTile.WireNumber(f.geomType)
  {
    FeatureJson(f.id, f.tags, DecodeGeomType(f.geomType), f.geometry)
  }

  /** Nothing of the wire feature is lost: distinct wire features give distinct raw
      features. */
  lemma NewFeatureJsonInjective(f: VectorTile.ProtoFeature, g: VectorTile.ProtoFeature)
    ensures NewFeatureJson(f) == NewFeatureJson(g) ==> f == g
  {
  }

  /** `#[derive(Default)]` of `FeatureJson` (also `Feature::default` for it). */
  function DefaultFeatureJson(): FeatureJson
  {
    FeatureJson(0, [], DefaultGeometryType(), [])
  }

  /** Reading a `FeatureJson` from a record whose fields may each be absent: `id`,
      `gtype` and `geometry` fall back to 0, UNKNOWN and the empty list; `tags` has no
      default, so a record without it is rejected. */
  function FeatureJsonFromFields(id: Option<u64>, tags: Option<seq<u32>>, gtype: Option<GeometryType>,
                                 geometry: Option<seq<u32>>): (r: Option<FeatureJson>)
    ensures r.Some? <==> tags.Some?
    ensures r.Some? ==> r.value.tags == tags.value
    ensures r.Some? ==> r.value.id == (if id.Some? then id.value else 0)
    ensures r.Some? ==> r.value.gtype == (if gtype.Some? then gtype.value else UNKNOWN)
    ensures r.Some? ==> r.value.geometry == (if geometry.Some? then geometry.value else [])
  {
    match tags
    case None => None
    case Some(t) =>
      Some(FeatureJson(
        match id case Some(i) => i case None => 0,
        t,
        match gtype case Some(g) => g case None => DefaultGeometryType(),
        match geometry case Some(g) => g case None => []))
  }

  /** The default raw feature is what both the default wire feature and a record
      holding only an empty `tags` list decode to; a record holding every field
      decodes to exactly those fields. */
  lemma FeatureJsonDefaults(j: FeatureJson)
    ensures DefaultFeatureJson().id == 0 && DefaultFeatureJson().tags == [] && DefaultFeatureJson().geometry == []
    ensures DefaultFeatureJson().gtype == DefaultGeometryType()
    ensures DefaultFeatureJson() == NewFeatureJson(VectorTile.ProtoFeature(0, [], VectorTile.UNKNOWN, []))
    ensures DefaultFeatureJson() == FeatureJsonFromFields(None, Some([]), None, None).value
    ensures FeatureJsonFromFields(Some(j.id), Some(j.tags), Some(j.gtype), Some(j.geometry)) == Some(j)
  {
  }
}
