# mvt-rs decoding core, modelled in Dafny

This project models the decoding core of `mvt-rs`, a Mapbox Vector Tile decoder. A tile
arrives as a parsed protobuf tree. Its layers hold key and value dictionaries and
features. Each feature carries tag index pairs and a packed command stream. The core:

- turns every wire value into a typed `Value`, taking the first present field;
- turns every wire geometry type into a `GeometryType`;
- builds a generic `Layer<F>`/`Tile<F>` whose features are made by a caller-chosen
  constructor that sees the layer's finished keys and values;
- in the resolved form, turns a feature's tags into a key → value map and its command
  stream into `MoveTo`/`LineTo`/`ClosePath` commands with zigzag-decoded deltas;
- computes the shoelace signed area of a ring.

Modules mirror the source files:

| module | file | contents |
|---|---|---|
| `Base` | | machine integer ranges, `Option`, `Result`, `MapAll` |
| `VectorTile` | | the parsed protobuf records (`vector_tile.proto`); the boundary, not modelled logic |
| `Values` | src/value.rs | `Value`, its `Clone`, `decode_value` |
| `GeometryTypes` | src/geometry_type.rs | `GeometryType`, its default and `decode_geom_type` |
| `Tiles` | src/tiles.rs | the input tree of the resolved decoder, with its derived defaults |
| `Features` | src/feature.rs | `FeatureJson`, `Command`, JSON field defaults |
| `Utils` | src/utils.rs | `decode_zigzag`, `signed_area` |
| `Decoded` | src/decoded.rs | tag resolution, the command interpreter, `Feature/Layer/Tile::new` |
| `CommandEncoding` | | a reference encoder for the command stream; its round trip and completeness |
| `Layers` | src/layer.rs | `Layer<F>`, `decode_layer`, `default_extent` |
| `TileDecode` | src/tile.rs | `Tile<F>`, `Tile::new`, `get_layer` |

Loops in the source stay loops: the tag loop, the command interpreter and its parameter
loop, the per-feature and per-layer push loops, both loops of `signed_area`, and the
linear search of `get_layer`. Each is a `method`. Its postcondition ties the result to a
specification function, and the properties are proved about that function.

Modelling conventions:

- Integer widths are subset types of `int` (`u32`, `u64`, `i64`).
- Float payloads of `Value` are opaque bit patterns.
- The source's panics become error results of type `DecodeError`:
  - an odd-length tag array whose last key index is in range (decoded.rs:73 indexing
    `tags[i + 1]`) is `MalformedTags`;
  - a key or value index outside its dictionary is `IndexOutOfRange`;
  - a truncated parameter list (decoded.rs:84-86) or an unknown command id (decoded.rs:101)
    is `MalformedCommandStream`.
- Errors are reported in the source's evaluation order. For one tag pair that is the key
  index, then the presence of the value index, then the value index. So `tags = [5]` with
  no keys is `IndexOutOfRange`, not `MalformedTags`, as `layer.keys[tags[i]]` is evaluated
  first.

Two behaviours of the code worth noting:

- `signed_area` accepts any non-empty ring, including rings of one or two points. It
  underflows only on the empty ring, which is a precondition here.
- The derived `Default` of `Layer` has extent 0. Only the protobuf getter and JSON
  deserialization supply 4096.

## Model

| member | source | states |
|---|---|---|
| Values.CloneValue | src/value.rs:29-41 | the clone is equal to the original, variant and payload |
| Values.DecodeValue | src/value.rs:43-67 | the result is the first present field in precedence order string, float, double, int, uint, sint, bool; a string field always wins; no field gives the empty string |
| Values.DecodeSingleField | src/value.rs:43-67 | a wire value with exactly one field set decodes to that variant with that payload; one with none set decodes to the empty string |
| GeometryTypes.FromCode | src/geometry_type.rs:6-13 | a `u8` names a geometry type exactly when it is at most 3, and then the type's code is that byte |
| GeometryTypes.CodeRoundTrip | src/geometry_type.rs:6-13 | reading back any type's code gives the type |
| GeometryTypes.DefaultGeometryType | src/geometry_type.rs:21-23 | the default is the type with code 0, UNKNOWN |
| GeometryTypes.DecodeGeomType | src/geometry_type.rs:25-32 | the decoded type has the wire enum's number as its code |
| GeometryTypes.DecodeGeomTypeBijective | src/geometry_type.rs:25-32 | the wire-to-decoded mapping is injective and every decoded type is reached |
| Features.NewFeatureJson | src/feature.rs:27-34 | id, tags and geometry are copied and the geometry type keeps its numeric code |
| Features.NewFeatureJsonInjective | src/feature.rs:27-34 | distinct wire features give distinct raw features |
| Features.FeatureJsonFromFields | src/feature.rs:15-24 | a record is accepted exactly when `tags` is present; a missing id, type or geometry becomes 0, UNKNOWN or the empty list |
| Features.FeatureJsonDefaults | src/feature.rs:15-38 | `DefaultFeatureJson` (the derived `Default`, also `Feature::default`) has id 0, no tags, no geometry and type UNKNOWN; it is the decoding of the default wire feature and of a record with only empty tags; a full record reads back unchanged |
| Utils.DecodeZigzag | src/utils.rs:1-3 | the result lies in the signed 32-bit range and zigzag-encodes back to the input |
| Utils.DecodeEncodeZigzag | src/utils.rs:1-3 | decoding inverts zigzag encoding on the whole signed 32-bit range |
| Utils.DecodeZigzagInjective | src/utils.rs:1-3 | distinct inputs decode to distinct values; the result is non-negative exactly for even inputs |
| Utils.DecodeZigzagExamples | src/utils.rs:1-3 | 0, 1, 2, 3 decode to 0, -1, 1, -2; the two largest inputs decode to the 32-bit extremes |
| Utils.SignedArea | src/utils.rs:5-21 | for a non-empty ring, the two loops compute twice the cyclic shoelace sum over all edges, including the closing edge |
| Utils.ForwardMinusBackward | src/utils.rs:9-16 | the difference of the two loops' partial sums is the sum of cross products over the first edges |
| Utils.SignedAreaExamples | src/utils.rs:28-34 | the two test rings have doubled areas -60 and 2 (areas -30 and 1) |
| Utils.SinglePointArea | src/utils.rs:5-21 | a one-point ring has zero area |
| Utils.ShoelaceReverse | src/utils.rs:5-21 | reversing the ring's point order negates its signed area |
| Utils.ShoelaceRotateBy | src/utils.rs:5-21 | starting the ring at any of its points leaves the signed area unchanged |
| Utils.ShoelaceTranslate | src/utils.rs:5-21 | shifting every point by the same vector leaves the signed area unchanged |
| Decoded.ResolveTags | src/decoded.rs:71-74 | the tag loop computes the tag resolution of the whole array from the empty map, including its first error |
| Decoded.ResolveSucceedsIffWellFormed | src/decoded.rs:72-73 | resolution succeeds exactly when the tag array has even length and every key and value index is in range |
| Decoded.ResolveFromUntouched | src/decoded.rs:72-74 | a key that no remaining pair names keeps the value it had |
| Decoded.ResolveLastPairWins | src/decoded.rs:72-74 | each key maps to a copy of the value of the last pair that names it |
| Decoded.ResolveDomain | src/decoded.rs:72-74 | the map's keys are exactly the keys some pair names |
| Decoded.ResolveExamples | src/decoded.rs:71-74 | `[0,0,1,1]` gives `{a: 10, b: "x"}`; a repeated key keeps the later value; `[0]` is malformed; an out-of-range value index is rejected |
| Decoded.CommandId | src/decoded.rs:79 | the command id `header & 7` is below 8 |
| Decoded.CommandCount | src/decoded.rs:80 | the count `header >> 3` is below 2^29 |
| Decoded.CommandsFromStep | src/decoded.rs:78-102 | one interpreter step: a MoveTo/LineTo header with all 2·count parameters yields their pairs, one with fewer fails, a ClosePath yields one ClosePath, any other id fails |
| Decoded.ReadParameters | src/decoded.rs:83-97 | the inner loop succeeds exactly when 2·count parameters remain, then advances the cursor by 2·count and yields the zigzag-decoded pairs in order |
| Decoded.DecodeCommands | src/decoded.rs:75-103 | the interpreter loop computes the command decoding of the whole stream, including its failure cases |
| Decoded.DecodeFeature | src/decoded.rs:70-111 | a feature decodes exactly when its tags resolve and its geometry decodes; id and type are copied |
| Decoded.DecodeLayer | src/decoded.rs:35-46 | a layer decodes exactly when all its features do; name and extent are copied; features keep count and order |
| Decoded.DecodeTile | src/decoded.rs:11-20 | a tile decodes exactly when all its layers do; layers keep count and order |
| Tiles.DefaultsAreEmpty | src/tiles.rs:9-45 | `DefaultGeometryType` is UNKNOWN; `DefaultFeature`, `DefaultLayer` and `DefaultTile` have every number 0 (version, id and extent included), every string and list empty, and the default geometry type |
| Decoded.DefaultsDecode | src/tiles.rs:24-45 | the default feature, layer and tile decode to the empty feature, layer and tile |
| Base.MapAll | src/decoded.rs:36-39 | the map succeeds exactly when every element does, keeping count and order; otherwise it returns the error of the first failing element |
| CommandEncoding.CommandHeader | src/decoded.rs:79-80 | the header `id + 8·count` reads back as that id and count |
| CommandEncoding.DeltasRoundTrip | src/decoded.rs:84-88 | decoding parameters to deltas and encoding them back gives the parameters; the deltas' commands are the decoder's pairs |
| CommandEncoding.DecodeSegmentsThen | src/decoded.rs:78-103 | decoding encoded segments and then any stream gives the segments' commands before what that stream decodes to |
| CommandEncoding.DecodeEncodeCommands | src/decoded.rs:75-103 | round trip: the decoder returns exactly the commands of the segments encoded |
| CommandEncoding.SegmentsFromSound | src/decoded.rs:78-103 | the segments read from an accepted stream encode back to it and carry exactly the decoded commands |
| CommandEncoding.DecodeAcceptsOnlyEncodings | src/decoded.rs:75-103 | a stream is accepted exactly when it encodes some segments; the number of commands is the MoveTo/LineTo counts plus the ClosePath headers |
| CommandEncoding.UnknownCommandFails | src/decoded.rs:100-102 | a header with an id other than 1, 2 or 7 after any well-formed prefix fails the whole stream |
| CommandEncoding.TruncatedParametersFail | src/decoded.rs:83-87 | a MoveTo/LineTo header after any well-formed prefix with fewer than 2·count parameters fails the whole stream |
| CommandEncoding.DecodeCommandsExample | src/decoded.rs:75-103 | `[9,4,4,18,0,16,16,0,15]` decodes to MoveTo(2,2), LineTo(0,8), LineTo(8,0), ClosePath |
| Layers.DecodedValues | src/layer.rs:38-40 | one value per wire value, in order, each decoded by `decode_value` |
| Layers.DecodeLayer | src/layer.rs:31-46 | version, name and keys are copied; values are decoded one per wire value in order; one feature per wire feature in order, each built from the finished keys and values; extent comes from the wire layer with the schema default 4096 |
| Layers.LayerFromAppendFeature | src/layer.rs:41-43 | an extra wire feature at the end adds exactly its constructed feature at the end and changes nothing else |
| Layers.LayerFromFeatureIndependent | src/layer.rs:37-43 | decoded values do not depend on the features; each feature depends only on its wire feature and the dictionaries |
| Layers.EmptyLayerDecode | src/layer.rs:8-44 | `DefaultLayer`, the derived `Default`, has version 0, extent 0 and every string and list empty; an empty wire layer without extent decodes to it except for extent 4096 |
| Layers.LayerFromFields | src/layer.rs:16-29 | a record is accepted exactly when every field but `extent` is present; a missing extent becomes 4096 |
| Layers.LayerFieldsRoundTrip | src/layer.rs:16-29 | a full record reads back unchanged; without `extent` it reads back with extent 4096 |
| TileDecode.NewTile | src/tile.rs:21-29 | one layer per wire layer, in order, each the decoding of its wire layer |
| TileDecode.FirstLayerNamed | src/tile.rs:31-38 | the reported index is the first layer with the given name; none exactly when no layer has that name |
| TileDecode.GetLayer | src/tile.rs:31-38 | the result is None exactly when no layer has the name; otherwise it is the first layer with that name, so its name equals the query |
| TileDecode.FirstNamedIsFirst | src/tile.rs:31-38 | any index that holds the first match is the one the lookup reports |
| TileDecode.FirstLayerNamedOfDecoded | src/tile.rs:21-38 | in a decoded tile, the lookup finds the decoding of the first wire layer of that name, and nothing when no wire layer has it |
| TileDecode.TileFromFields | src/tile.rs:13-14 | a record without `layers` reads as a tile with no layers |
| TileDecode.DefaultTileEmpty | src/tile.rs:8-14 | `DefaultTile`, the derived `Default`, has no layers and is what an empty wire tile decodes to |

## Left out

- Protobuf parsing of the tile bytes. The generated `vector_tile` module is not part of this model: the `VectorTile` records stand for its output, with the schema's defaults applied by the getters.
- JSON serialization itself (serde). Only the field defaults deserialization applies are modelled (`FeatureJsonFromFields`, `LayerFromFields`, `TileFromFields`). The `u8` representation of `GeometryType` is modelled as `Code`/`FromCode`.
- Decoded.DecodeCommands: deltas are kept as exact 64-bit integers. decoded.rs:88 and 96 cast them to `f32`, which rounds magnitudes above 2^24. feature.rs:50-54 declares the same command with `i64` deltas, and the model uses that one `Command` type.
- Utils.SignedArea: returns the doubled area as an unbounded integer. It does not model the `f64` conversion and halving, or the `i64` overflow of the products.
- Utils.DecodeZigzag: shift, mask and xor are modelled by their arithmetic meaning (halving, and `-half - 1` for odd inputs), not bit by bit.
- `HashMap` in decoded.rs is modelled as a Dafny `map`. Iteration order of the map is not observable in the source and is not modelled.
- Layers.DecodeLayer: the feature constructor `F::new` is a function parameter taking the wire feature, keys and values, as layer.rs:42 calls it. The trait at feature.rs:10-13 declares a one-argument `new`. `Feature::default` is not modelled apart from `DefaultFeatureJson`.
- The structs `FeatureWithCommands` and `FeatureWithCoordinates` (feature.rs:41-62) have only private fields and no operations, so they are not modelled.
- No geometry assembler (cumulative coordinates, ring classification into points, lines and polygons) exists in src/; `lib.rs` re-exports `Geometry` and `Polygon`, which feature.rs does not define. So none is modelled.
- `Value::new` and `GeometryType::new` only forward to `decode_value` and `decode_geom_type`. Each pair is modelled as one function.
- The `Value` enum of tiles.rs and that of value.rs have the same variants and are modelled once. The same holds for the two `GeometryType` enums of tiles.rs and geometry_type.rs, which are kept as two datatypes because the source keeps them apart.
- The accessor methods of decoded.rs (`layers`, `name`, `features`, `extent`, `id`, `metadata`, `commands`, `type`) only return fields and are not modelled separately.
- src/lib.rs and src/decode.rs (the top-level entry points over bytes) are not part of this model.
