/** The message tree produced by the protobuf parser for the Mapbox Vector Tile
    schema (vector_tile.proto, version 2.1 of the Mapbox Vector Tile Specification).
    The parser and its generated accessors are outside the model; this module only
    fixes the shape of its output, the input of layer.rs, tile.rs, value.rs,
    geometry_type.rs and feature.rs. */
module VectorTile {
  import opened Base

  /** `Tile.GeomType` of the schema. */
  datatype GeomType = UNKNOWN | POINT | LINESTRING | POLYGON

  /** The enum number the schema assigns to each wire geometry type. */
  function WireNumber(t: GeomType): nat
  {
    match t
    case UNKNOWN => 0
    case POINT => 1
    case LINESTRING => 2
    case POLYGON => 3
  }

  /** `Tile.Value`: seven optional scalar fields; the schema says exactly one should be
      present, but nothing enforces it, so any combination can arrive. */
  datatype ProtoValue = ProtoValue(
    stringValue: Option<string>,
    floatValue: Option<Float32Bits>,
    doubleValue: Option<Float64Bits>,
    intValue: Option<i64>,
    uintValue: Option<u64>,
    sintValue: Option<i64>,
    boolValue: Option<bool>)

  /** `Tile.Feature`, with the schema defaults (id 0, type UNKNOWN) already applied by
      the parser's getters. */
  datatype ProtoFeature = ProtoFeature(id: u64, tags: seq<u32>, geomType: GeomType, geometry: seq<u32>)

  /** `Tile.Layer`; `extent` is optional on the wire. */
  datatype ProtoLayer = ProtoLayer(
    version: u32,
    name: string,
    features: seq<ProtoFeature>,
    keys: seq<string>,
    values: seq<ProtoValue>,
    extent: Option<u32>)

  datatype ProtoTile = ProtoTile(layers: seq<ProtoLayer>)

  /** The extent the schema declares for a layer that omits it. */
  const SCHEMA_DEFAULT_EXTENT: u32 := 4096

  /** The generated getter `get_extent()`: the stored extent, or the schema default. */
  function GetExtent(layer: ProtoLayer): u32
  {
    match layer.extent
    case Some(e) => e
    case None => SCHEMA_DEFAULT_EXTENT
  }
}
