/** The input tree consumed by src/decoded.rs (src/tiles.rs): a hand-written mirror of
    the vector tile schema, with the `Default`s the source derives or declares. */
module Tiles {
  import opened Base
  import opened Values

  datatype GeometryType = UNKNOWN | POINT | LINESTRING | POLYGON

  /** `impl Default for GeometryType`. */
  function DefaultGeometryType(): GeometryType
  {
    UNKNOWN
  }

  /** A feature: its id, its tag index pairs, its geometry type and its packed command
      stream. */
  datatype Feature = Feature(id: u64, tags: seq<u32>, geomType: GeometryType, geometry: seq<u32>)

  /** A layer: the key and value dictionaries indexed by every feature's tags. */
  datatype Layer = Layer(
    version: u32,
    name: string,
    features: seq<Feature>,
    keys: seq<string>,
    values: seq<Value>,
    extent: u32)

  datatype Tile = Tile(layers: seq<Layer>)

  /** `#[derive(Default)]` of `Feature`. */
  function DefaultFeature(): Feature
  {
    Feature(0, [], DefaultGeometryType(), [])
  }

  /** `#[derive(Default)]` of `Layer`: every number 0, every string and list empty. */
  function DefaultLayer(): Layer
  {
    Layer(0, "", [], [], [], 0)
  }

  /** `#[derive(Default)]` of `Tile`. */
  function DefaultTile(): Tile
  {
    Tile([])
  }

  /** Every derived default is empty: numbers 0, strings and lists empty, and the
      geometry type UNKNOWN. */
  lemma DefaultsAreEmpty()
    ensures DefaultGeometryType() == UNKNOWN
    ensures DefaultFeature().id == 0 && DefaultFeature().tags == [] && DefaultFeature().geometry == []
    ensures DefaultFeature().geomType == DefaultGeometryType()
    ensures DefaultLayer().version == 0 && DefaultLayer().name == "" && DefaultLayer().extent == 0
    ensures DefaultLayer().features == [] && DefaultLayer().keys == [] && DefaultLayer().values == []
    ensures DefaultTile().layers == []
  {
  }
}
