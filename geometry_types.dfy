/** The decoded geometry type (src/geometry_type.rs): a `u8`-represented enum, its
    default and the mapping from the wire enum. */
module GeometryTypes {
  import opened Base
  import VectorTile

  datatype GeometryType = UNKNOWN | POINT | LINESTRING | POLYGON

  /** The `#[repr(u8)]` discriminant of each variant. */
  function Code(g: GeometryType): u8
  {
    match g
    case UNKNOWN => 0
    case POINT => 1
    case LINESTRING => 2
    case POLYGON => 3
  }

  /** Reads a discriminant back, as the `u8` (de)serialization of the enum does;
      any byte other than 0..3 names no variant. */
  function FromCode(c: u8): (r: Option<GeometryType>)
    ensures r.Some? <==> c <= 3
    ensures r.Some? ==> Code(r.value) == c
  {
    if c == 0 then Some(UNKNOWN)
    else if c == 1 then Some(POINT)
    else if c == 2 then Some(LINESTRING)
    else if c == 3 then Some(POLYGON)
    else None
  }

  /** Every variant's discriminant reads back as that variant, so `Code` is injective. */
  lemma CodeRoundTrip(g: GeometryType)
    ensures Code(g) <= 3
    ensures FromCode(Code(g)) == Some(g)
  {
  }

  /** `impl Default for GeometryType`. */
  function DefaultGeometryType(): (g: GeometryType)
    ensures Code(g) == 0
  {
    UNKNOWN
  }

  /** `decode_geom_type` (and `GeometryType::new`, which forwards to it): each wire
      variant becomes the same-named variant, so the enum numbers agree. */
  function DecodeGeomType(t: VectorTile.GeomType): (g: GeometryType)
    ensures Code(g) == VectorTile.WireNumber(t)
  {
    match t
    case UNKNOWN => UNKNOWN
    case POINT => POINT
    case LINESTRING => LINESTRING
    case POLYGON => POLYGON
  }

  /** The mapping is a bijection between the four wire variants and the four variants. */
  lemma DecodeGeomTypeBijective(t: VectorTile.GeomType, u: VectorTile.GeomType, g: GeometryType)
    ensures DecodeGeomType(t) == DecodeGeomType(u) ==> t == u
    ensures exists w :: DecodeGeomType(w) == g
  {
    match g
    case UNKNOWN => assert DecodeGeomType(VectorTile.UNKNOWN) == g;
    case POINT => assert DecodeGeomType(VectorTile.POINT) == g;
    case LINESTRING => assert DecodeGeomType(VectorTile.LINESTRING) == g;
    case POLYGON => assert DecodeGeomType(VectorTile.POLYGON) == g;
  }
}
