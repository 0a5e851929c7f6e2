/** Tiles of src/tile.rs: a decoded tile generic in its feature representation,
    `Tile::new`, which decodes every wire layer in order, and `get_layer`, a first-match
    lookup by name. */
module TileDecode {
  import opened Base
  import opened VectorTile
  import opened Layers

  datatype Tile<F> = Tile(layers: seq<Layer<F>>)

  /** `#[derive(Default)]` of `Tile`. */
  function DefaultTile<F>(): Tile<F>
  {
    Tile([])
  }

  /** Reference: the tile `Tile::new` builds. */
  function TileFrom<F>(tile: ProtoTile, newFeature: FeatureConstructor<F>): (t: Tile<F>)
  {
    Tile(seq(|tile.layers|, i requires 0 <= i < |tile.layers| => LayerFrom(tile.layers[i], newFeature)))
  }

  /** `Tile::new`: starts from the default tile and pushes the decoding of each wire layer. */
  method NewTile<F>(tile: ProtoTile, newFeature: FeatureConstructor<F>) returns (out: Tile<F>)
    ensures |out.layers| == |tile.layers|
    ensures forall i :: 0 <= i < |tile.layers| ==> out.layers[i] == LayerFrom(tile.layers[i], newFeature)
    ensures out == TileFrom(tile, newFeature)
  {
    out := DefaultTile();
    for i := 0 to |tile.layers|
      invariant |out.layers| == i
      invariant forall k :: 0 <= k < i ==> out.layers[k] == LayerFrom(tile.layers[k], newFeature)
    {
      var layer := DecodeLayer(tile.layers[i], newFeature);
      out := out.(layers := out.layers + [layer]);
    }
  }

  /** Reference: the index of the first layer called `name`, if any. */
  function FirstLayerNamed<F>(layers: seq<Layer<F>>, name: string): (r: Option<nat>)
    ensures r.None? <==> forall i :: 0 <= i < |layers| ==> layers[i].name != name
    ensures r.Some? ==> r.value < |layers| && layers[r.value].name == name &&
                        forall i :: 0 <= i < r.value ==> layers[i].name != name
    decreases |layers|
  {
    if layers == [] then None
    else if layers[0].name == name then Some(0)
    else match FirstLayerNamed(layers[1..], name)
      case None => None
      case Some(k) => Some(k + 1)
  }

  /** `get_layer`: scans the layers in order and returns the first whose name equals
      `name`, or None when there is none. */
  method GetLayer<F>(t: Tile<F>, name: string) returns (r: Option<Layer<F>>)
    ensures r.None? <==> forall i :: 0 <= i < |t.layers| ==> t.layers[i].name != name
    ensures r.Some? ==> r.value.name == name
    ensures r.Some? ==> exists k :: 0 <= k < |t.layers| && r.value == t.layers[k] &&
                                    forall i :: 0 <= i < k ==> t.layers[i].name != name
    ensures r == (match FirstLayerNamed(t.layers, name) case None => None case Some(k) => Some(t.layers[k]))
  {
    for i := 0 to |t.layers|
      invariant forall k :: 0 <= k < i ==> t.layers[k].name != name
    {
      if name == t.layers[i].name {
        FirstNamedIsFirst(t.layers, name, i);
        return Some(t.layers[i]);
      }
    }
    return None;
  }

  /** Any index holding the first match is the one `FirstLayerNamed` reports. */
  lemma FirstNamedIsFirst<F>(layers: seq<Layer<F>>, name: string, k: nat)
    requires k < |layers| && layers[k].name == name
    requires forall i :: 0 <= i < k ==> layers[i].name != name
    ensures FirstLayerNamed(layers, name) == Some(k)
  {
  }

  /** Looking a layer up in a decoded tile finds the decoding of the first wire layer of
      that name: names are copied, so the same index matches. */
  lemma FirstLayerNamedOfDecoded<F>(tile: ProtoTile, newFeature: FeatureConstructor<F>, name: string)
    ensures var t := TileFrom(tile, newFeature);
            match FirstLayerNamed(t.layers, name)
            case None => forall i :: 0 <= i < |tile.layers| ==> tile.layers[i].name != name
            case Some(k) => k < |tile.layers| && t.layers[k] == LayerFrom(tile.layers[k], newFeature) &&
                            tile.layers[k].name == name &&
                            forall i :: 0 <= i < k ==> tile.layers[i].name != name
  {
    var t := TileFrom(tile, newFeature);
    assert forall i :: 0 <= i < |tile.layers| ==> t.layers[i].name == tile.layers[i].name;
  }

  /** Reading a `Tile` from a record: a missing `layers` field gives no layers. */
  function TileFromFields<F>(layers: Option<seq<Layer<F>>>): (t: Tile<F>)
    ensures layers.Some? ==> t.layers == layers.value
    ensures layers.None? ==> t == DefaultTile()
  {
    match layers
    case Some(ls) => Tile(ls)
    case None => Tile([])
  }

  /** The default tile has no layers; it is what an empty wire tile decodes to and what
      a record without `layers` reads as. */
  lemma DefaultTileEmpty<F>(newFeature: FeatureConstructor<F>)
    ensures DefaultTile<F>().layers == []
    ensures TileFrom(ProtoTile([]), newFeature) == DefaultTile()
    ensures TileFromFields<F>(None) == DefaultTile()
  {
  }
}
