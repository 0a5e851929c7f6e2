/** The resolved decode of src/decoded.rs: a feature's tag pairs become a property
    map (section 4.4 of the Mapbox Vector Tile Specification) and its geometry stream
    becomes a list of drawing commands (section 4.3); layers and tiles collect them in
    source order. Every panic of the source is a `DecodeError` here. */
module Decoded {
  import opened Base
  import opened Values
  import opened Utils
  import opened Features
  import Tiles

  /** Why a feature could not be decoded. `IndexOutOfRange`: a tag names a key or value
      the layer does not have; `MalformedTags`: the last tag has no partner;
      `MalformedCommandStream`: an unknown command id, or a parameter read past the end
      of the geometry. */
  datatype DecodeError = MalformedTags | IndexOutOfRange | MalformedCommandStream

  datatype Feature = Feature(
    id: u64,
    metadata: map<string, Value>,
    commands: seq<Command>,
    geomType: Tiles.GeometryType)

  datatype Layer = Layer(name: string, features: seq<Feature>, extent: u32)

  datatype Tile = Tile(layers: seq<Layer>)

  // ---------------------------------------------------------------------------
  // Tag resolution
  // ---------------------------------------------------------------------------

  /** The key index of tag pair `q`. */
  function KeyIndex(tags: seq<u32>, q: nat): u32
    requires 2 * q < |tags|
  {
    tags[2 * q]
  }

  /** The value index of tag pair `q`. */
  function ValueIndex(tags: seq<u32>, q: nat): u32
    requires 2 * q + 1 < |tags|
  {
    tags[2 * q + 1]
  }

  /** Tags come in complete pairs and every index names an entry of its dictionary. */
  predicate TagsWellFormed(tags: seq<u32>, keys: seq<string>, values: seq<Value>)
  {
    && |tags| % 2 == 0
    && forall q :: 0 <= q < |tags| / 2 ==> KeyIndex(tags, q) < |keys| && ValueIndex(tags, q) < |values|
  }

  /** Specification of the tag loop, from tag position `i` on, with the map `m` built
      so far: each pair inserts `keys[tags[i]] -> values[tags[i + 1]]`, replacing any
      earlier entry for that key. The checks come in the order the source evaluates
      its indexing: the key index, the partner tag, the value index. */
  function ResolveFrom(m: map<string, Value>, tags: seq<u32>, keys: seq<string>, values: seq<Value>, i: nat)
    : Result<map<string, Value>, DecodeError>
    decreases |tags| - i
  {
    if i >= |tags| then Ok(m)
    else if tags[i] >= |keys| then Err(IndexOutOfRange)
    else if i + 1 >= |tags| then Err(MalformedTags)
    else if tags[i + 1] >= |values| then Err(IndexOutOfRange)
    else ResolveFrom(m[keys[tags[i]] := CloneValue(values[tags[i + 1]])], tags, keys, values, i + 2)
  }

  /** The tag loop of `Feature::new`. */
  method ResolveTags(tags: seq<u32>, keys: seq<string>, values: seq<Value>)
    returns (r: Result<map<string, Value>, DecodeError>)
    ensures r == ResolveFrom(map[], tags, keys, values, 0)
  {
    var hm: map<string, Value> := map[];
    var i := 0;
    while i < |tags|
      invariant i <= |tags|
      invariant ResolveFrom(map[], tags, keys, values, 0) == ResolveFrom(hm, tags, keys, values, i)
      decreases |tags| - i
    {
      if tags[i] >= |keys| {
        return Err(IndexOutOfRange);
      }
      if i + 1 >= |tags| {
        return Err(MalformedTags);
      }
      if tags[i + 1] >= |values| {
        return Err(IndexOutOfRange);
      }
      hm := hm[keys[tags[i]] := CloneValue(values[tags[i + 1]])];
      i := i + 2;
    }
    return Ok(hm);
  }

  lemma {:induction false} ResolveFromSucceeds(m: map<string, Value>, tags: seq<u32>, keys: seq<string>,
                                               values: seq<Value>, j: nat)
    requires 2 * j <= |tags|
    ensures ResolveFrom(m, tags, keys, values, 2 * j).Ok? <==>
            (|tags| % 2 == 0 &&
             forall q :: j <= q < |tags| / 2 ==> KeyIndex(tags, q) < |keys| && ValueIndex(tags, q) < |values|)
    decreases |tags| - 2 * j
  {
    if 2 * j < |tags| && tags[2 * j] < |keys| && 2 * j + 1 < |tags| && tags[2 * j + 1] < |values| {
      var m' := m[keys[tags[2 * j]] := CloneValue(values[tags[2 * j + 1]])];
      ResolveFromSucceeds(m', tags, keys, values, j + 1);
      assert 2 * (j + 1) == 2 * j + 2;
    } else if 2 * j < |tags| && !(2 * j + 1 < |tags|) {
      assert |tags| % 2 == 1;
    } else if 2 * j < |tags| {
      assert !(KeyIndex(tags, j) < |keys| && ValueIndex(tags, j) < |values|);
    }
  }

  /** Tag resolution succeeds exactly when the tags are well formed: an odd-length tag
      list or an out-of-range index is an error, never a silent skip. */
  lemma ResolveSucceedsIffWellFormed(tags: seq<u32>, keys: seq<string>, values: seq<Value>)
    ensures ResolveFrom(map[], tags, keys, values, 0).Ok? <==> TagsWellFormed(tags, keys, values)
  {
    ResolveFromSucceeds(map[], tags, keys, values, 0);
  }

  /** A key that no remaining pair mentions keeps what the accumulated map says of it. */
  lemma {:induction false} ResolveFromUntouched(m: map<string, Value>, tags: seq<u32>, keys: seq<string>,
                                                values: seq<Value>, j: nat, key: string)
    requires 2 * j <= |tags| && TagsWellFormed(tags, keys, values)
    requires forall q :: j <= q < |tags| / 2 ==> keys[KeyIndex(tags, q)] != key
    ensures ResolveFrom(m, tags, keys, values, 2 * j).Ok?
    ensures var r := ResolveFrom(m, tags, keys, values, 2 * j).value;
            (key in r <==> key in m) && (key in m ==> r[key] == m[key])
    decreases |tags| - 2 * j
  {
    if 2 * j < |tags| {
      assert KeyIndex(tags, j) < |keys| && ValueIndex(tags, j) < |values|;
      var m' := m[keys[tags[2 * j]] := CloneValue(values[tags[2 * j + 1]])];
      ResolveFromUntouched(m', tags, keys, values, j + 1, key);
      assert 2 * (j + 1) == 2 * j + 2;
    }
  }

  lemma {:induction false} ResolveFromLastWins(m: map<string, Value>, tags: seq<u32>, keys: seq<string>,
                                               values: seq<Value>, j: nat, p: nat)
    requires TagsWellFormed(tags, keys, values)
    requires j <= p < |tags| / 2
    requires forall q :: p < q < |tags| / 2 ==> keys[KeyIndex(tags, q)] != keys[KeyIndex(tags, p)]
    ensures ResolveFrom(m, tags, keys, values, 2 * j).Ok?
    ensures var r := ResolveFrom(m, tags, keys, values, 2 * j).value;
            keys[KeyIndex(tags, p)] in r && r[keys[KeyIndex(tags, p)]] == values[ValueIndex(tags, p)]
    decreases |tags| - 2 * j
  {
    assert KeyIndex(tags, j) < |keys| && ValueIndex(tags, j) < |values|;
    var m' := m[keys[tags[2 * j]] := CloneValue(values[tags[2 * j + 1]])];
    assert 2 * (j + 1) == 2 * j + 2;
    if j == p {
      ResolveFromUntouched(m', tags, keys, values, j + 1, keys[KeyIndex(tags, p)]);
    } else {
      ResolveFromLastWins(m', tags, keys, values, j + 1, p);
    }
  }

  /** For a pair whose key no later pair repeats, the map sends that key to the pair's
      value. When several pairs share a key, the last of them is the one kept. */
  lemma ResolveLastPairWins(tags: seq<u32>, keys: seq<string>, values: seq<Value>, p: nat)
    requires TagsWellFormed(tags, keys, values)
    requires p < |tags| / 2
    requires forall q :: p < q < |tags| / 2 ==> keys[KeyIndex(tags, q)] != keys[KeyIndex(tags, p)]
    ensures ResolveFrom(map[], tags, keys, values, 0).Ok?
    ensures var r := ResolveFrom(map[], tags, keys, values, 0).value;
            keys[KeyIndex(tags, p)] in r && r[keys[KeyIndex(tags, p)]] == values[ValueIndex(tags, p)]
  {
    ResolveFromLastWins(map[], tags, keys, values, 0, p);
  }

  lemma {:induction false} ResolveFromDomain(m: map<string, Value>, tags: seq<u32>, keys: seq<string>,
                                             values: seq<Value>, j: nat)
    requires 2 * j <= |tags| && TagsWellFormed(tags, keys, values)
    ensures ResolveFrom(m, tags, keys, values, 2 * j).Ok?
    ensures var r := ResolveFrom(m, tags, keys, values, 2 * j).value;
            forall key :: key in r <==>
              key in m || exists q :: j <= q < |tags| / 2 && keys[KeyIndex(tags, q)] == key
    decreases |tags| - 2 * j
  {
    if 2 * j < |tags| {
      assert KeyIndex(tags, j) < |keys| && ValueIndex(tags, j) < |values|;
      var m' := m[keys[tags[2 * j]] := CloneValue(values[tags[2 * j + 1]])];
      ResolveFromDomain(m', tags, keys, values, j + 1);
      assert 2 * (j + 1) == 2 * j + 2;
      var r := ResolveFrom(m, tags, keys, values, 2 * j).value;
      forall key | key in r
        ensures key in m || exists q :: j <= q < |tags| / 2 && keys[KeyIndex(tags, q)] == key
      {
        if key !in m && key != keys[KeyIndex(tags, j)] {
          var q :| j + 1 <= q < |tags| / 2 && keys[KeyIndex(tags, q)] == key;
        }
      }
    }
  }

  /** The keys of the map are exactly the keys some pair names. */
  lemma ResolveDomain(tags: seq<u32>, keys: seq<string>, values: seq<Value>)
    requires TagsWellFormed(tags, keys, values)
    ensures ResolveFrom(map[], tags, keys, values, 0).Ok?
    ensures var r := ResolveFrom(map[], tags, keys, values, 0).value;
            forall key :: key in r <==> exists q :: 0 <= q < |tags| / 2 && keys[KeyIndex(tags, q)] == key
  {
    ResolveFromDomain(map[], tags, keys, values, 0);
  }

  /** Two worked cases: distinct keys, and a repeated key whose later value wins. */
  lemma ResolveExamples()
    ensures ResolveFrom(map[], [0, 0, 1, 1], ["a", "b"], [IntValue(10), StringValue("x")], 0)
         == Ok(map["a" := IntValue(10), "b" := StringValue("x")])
    ensures ResolveFrom(map[], [0, 0, 0, 1], ["a"], [IntValue(1), IntValue(2)], 0)
         == Ok(map["a" := IntValue(2)])
    ensures ResolveFrom(map[], [0], ["a"], [IntValue(1)], 0) == Err(MalformedTags)
    ensures ResolveFrom(map[], [0, 1], ["a"], [IntValue(1)], 0) == Err(IndexOutOfRange)
  {
    assert map[]["a" := IntValue(10)]["b" := StringValue("x")] == map["a" := IntValue(10), "b" := StringValue("x")];
    assert map[]["a" := IntValue(1)]["a" := IntValue(2)] == map["a" := IntValue(2)];
  }

  // ---------------------------------------------------------------------------
  // Command decoding
  // ---------------------------------------------------------------------------

  /** `header & 0x7`: the low three bits of a command header. */
  function CommandId(header: u32): (id: nat)
    ensures id < 8
  {
    header % 8
  }

  /** `header >> 3`: the remaining 29 bits, the repeat count. */
  function CommandCount(header: u32): (count: nat)
    ensures count < 0x2000_0000
  {
    header / 8
  }

  /** A MoveTo (id 1) or LineTo (id 2) with zigzag-decoded deltas. */
  function MakeCommand(id: nat, x: u32, y: u32): Command
    requires id == 1 || id == 2
  {
    if id == 1 then MoveTo(DecodeZigzag(x), DecodeZigzag(y)) else LineTo(DecodeZigzag(x), DecodeZigzag(y))
  }

  /** The commands of one MoveTo/LineTo header: its parameters read two at a time. */
  function Pairs(params: seq<u32>, id: nat): seq<Command>
    requires id == 1 || id == 2
    decreases |params|
  {
    if |params| < 2 then [] else [MakeCommand(id, params[0], params[1])] + Pairs(params[2..], id)
  }

  /** Puts `prefix` in front of a successful result; passes an error through. */
  function Prepend(prefix: seq<Command>, r: Result<seq<Command>, DecodeError>): Result<seq<Command>, DecodeError>
  {
    match r
    case Ok(rest) => Ok(prefix + rest)
    case Err(e) => Err(e)
  }

  /** Specification of the command loop, from stream position `i` on. A MoveTo or
      LineTo header with count c takes the next 2c integers and emits c commands; a
      ClosePath header emits one command and takes nothing, whatever its count; any
      other id, or fewer than 2c integers left, is an error. */
  function CommandsFrom(g: seq<u32>, i: nat): Result<seq<Command>, DecodeError>
    decreases |g| - i
  {
    if i >= |g| then Ok([])
    else
      var id := CommandId(g[i]);
      var count := CommandCount(g[i]);
      if id == 1 || id == 2 then
        if i + 1 + 2 * count > |g| then Err(MalformedCommandStream)
        else Prepend(Pairs(g[i + 1..i + 1 + 2 * count], id), CommandsFrom(g, i + 1 + 2 * count))
      else if id == 7 then Prepend([ClosePath], CommandsFrom(g, i + 1))
      else Err(MalformedCommandStream)
  }

  lemma {:induction false} PairsSnoc(s: seq<u32>, id: nat, x: u32, y: u32)
    requires id == 1 || id == 2
    requires |s| % 2 == 0
    ensures Pairs(s + [x, y], id) == Pairs(s, id) + [MakeCommand(id, x, y)]
    decreases |s|
  {
    if |s| == 0 {
      assert (s + [x, y])[2..] == [];
    } else {
      assert (s + [x, y])[2..] == s[2..] + [x, y];
      PairsSnoc(s[2..], id, x, y);
    }
  }

  lemma PrependAssoc(a: seq<Command>, b: seq<Command>, r: Result<seq<Command>, DecodeError>)
    ensures Prepend(a, Prepend(b, r)) == Prepend(a + b, r)
  {
    if r.Ok? {
      assert a + (b + r.value) == (a + b) + r.value;
    }
  }

  lemma PrependEmpty(r: Result<seq<Command>, DecodeError>)
    ensures Prepend([], r) == r
  {
    if r.Ok? {
      assert [] + r.value == r.value;
    }
  }

  /** One step of the command loop, for the header at position `i`. */
  lemma CommandsFromStep(g: seq<u32>, i: nat)
    requires i < |g|
    ensures var id, count := CommandId(g[i]), CommandCount(g[i]);
      && ((id == 1 || id == 2) && i + 1 + 2 * count > |g| ==> CommandsFrom(g, i) == Err(MalformedCommandStream))
      && ((id == 1 || id == 2) && i + 1 + 2 * count <= |g| ==>
            CommandsFrom(g, i) == Prepend(Pairs(g[i + 1..i + 1 + 2 * count], id), CommandsFrom(g, i + 1 + 2 * count)))
      && (id == 7 ==> CommandsFrom(g, i) == Prepend([ClosePath], CommandsFrom(g, i + 1)))
      && (id != 1 && id != 2 && id != 7 ==> CommandsFrom(g, i) == Err(MalformedCommandStream))
  {
  }

  /** The inner `for _ in 0..count` loop of a MoveTo or LineTo header: reads `count`
      parameter pairs from the cursor on, failing if the stream ends first. */
  method ReadParameters(geometry: seq<u32>, start: nat, count: nat, commandId: nat)
    returns (r: Option<seq<Command>>, i: nat)
    requires commandId == 1 || commandId == 2
    requires start <= |geometry|
    ensures r.Some? <==> start + 2 * count <= |geometry|
    ensures r.Some? ==> i == start + 2 * count && r.value == Pairs(geometry[start..i], commandId)
  {
    var commands: seq<Command> := [];
    i := start;
    for k := 0 to count
      invariant i == start + 2 * k <= |geometry|
      invariant commands == Pairs(geometry[start..i], commandId)
    {
      if i >= |geometry| {
        return None, i;
      }
      var x := geometry[i];
      i := i + 1;
      if i >= |geometry| {
        return None, i;
      }
      var y := geometry[i];
      i := i + 1;
      PairsSnoc(geometry[start..i - 2], commandId, x, y);
      assert geometry[start..i] == geometry[start..i - 2] + [x, y];
      commands := commands + [MakeCommand(commandId, x, y)];
    }
    return Some(commands), i;
  }

  /** The command loop of `Feature::new`: a cursor walks the stream, reading a header
      and then the parameters it announces. */
  method DecodeCommands(geometry: seq<u32>) returns (r: Result<seq<Command>, DecodeError>)
    ensures r == CommandsFrom(geometry, 0)
  {
    var commands: seq<Command> := [];
    var i := 0;
    PrependEmpty(CommandsFrom(geometry, 0));
    while i < |geometry|
      invariant i <= |geometry|
      invariant CommandsFrom(geometry, 0) == Prepend(commands, CommandsFrom(geometry, i))
      decreases |geometry| - i
    {
      var commandId := CommandId(geometry[i]);
      var count := CommandCount(geometry[i]);
      CommandsFromStep(geometry, i);
      i := i + 1;
      if commandId == 1 || commandId == 2 {
        var params, next := ReadParameters(geometry, i, count, commandId);
        if params.None? {
          return Err(MalformedCommandStream);
        }
        PrependAssoc(commands, params.value, CommandsFrom(geometry, next));
        commands := commands + params.value;
        i := next;
      } else if commandId == 7 {
        PrependAssoc(commands, [ClosePath], CommandsFrom(geometry, i));
        commands := commands + [ClosePath];
      } else {
        return Err(MalformedCommandStream);
      }
    }
    assert commands + [] == commands;
    return Ok(commands);
  }

  // ---------------------------------------------------------------------------
  // Features, layers, tiles
  // ---------------------------------------------------------------------------

  /** Specification of `Feature::new`: tags first, then geometry; id and type are
      copied unchanged. */
  function FeatureFrom(f: Tiles.Feature, layer: Tiles.Layer): Result<Feature, DecodeError>
  {
    match ResolveFrom(map[], f.tags, layer.keys, layer.values, 0)
    case Err(e) => Err(e)
    case Ok(m) =>
      match CommandsFrom(f.geometry, 0)
      case Err(e) => Err(e)
      case Ok(cs) => Ok(Feature(f.id, m, cs, f.geomType))
  }

  /** `Feature::new`. */
  method DecodeFeature(f: Tiles.Feature, layer: Tiles.Layer) returns (r: Result<Feature, DecodeError>)
    ensures r == FeatureFrom(f, layer)
    ensures r.Ok? <==> ResolveFrom(map[], f.tags, layer.keys, layer.values, 0).Ok? && CommandsFrom(f.geometry, 0).Ok?
    ensures r.Ok? ==> r.value.id == f.id && r.value.geomType == f.geomType
  {
    var metadata := ResolveTags(f.tags, layer.keys, layer.values);
    if metadata.Err? {
      return Err(metadata.error);
    }
    var commands := DecodeCommands(f.geometry);
    if commands.Err? {
      return Err(commands.error);
    }
    return Ok(Feature(f.id, metadata.value, commands.value, f.geomType));
  }

  /** Specification of `Layer::new`: every feature decoded against this layer's
      dictionaries, in order; the first failing feature fails the layer. */
  function LayerFrom(layer: Tiles.Layer): Result<Layer, DecodeError>
  {
    match MapAll(layer.features, (f: Tiles.Feature) => FeatureFrom(f, layer))
    case Err(e) => Err(e)
    case Ok(fs) => Ok(Layer(layer.name, fs, layer.extent))
  }

  /** `Layer::new`: one decoded feature per input feature, in source order, with the
      layer's name and extent copied. */
  method DecodeLayer(layer: Tiles.Layer) returns (r: Result<Layer, DecodeError>)
    ensures r == LayerFrom(layer)
    ensures r.Ok? <==> forall i :: 0 <= i < |layer.features| ==> FeatureFrom(layer.features[i], layer).Ok?
    ensures r.Ok? ==> r.value.name == layer.name && r.value.extent == layer.extent
    ensures r.Ok? ==> |r.value.features| == |layer.features| &&
                      forall i :: 0 <= i < |layer.features| ==>
                        Ok(r.value.features[i]) == FeatureFrom(layer.features[i], layer)
  {
    var features: seq<Feature> := [];
    for i := 0 to |layer.features|
      invariant |features| == i
      invariant forall j :: 0 <= j < i ==> FeatureFrom(layer.features[j], layer) == Ok(features[j])
    {
      var f := DecodeFeature(layer.features[i], layer);
      if f.Err? {
        ghost var all := MapAll(layer.features, (g: Tiles.Feature) => FeatureFrom(g, layer));
        assert all.Err?;
        return Err(f.error);
      }
      features := features + [f.value];
    }
    ghost var all := MapAll(layer.features, (g: Tiles.Feature) => FeatureFrom(g, layer));
    assert all.Ok? && all.value == features;
    return Ok(Layer(layer.name, features, layer.extent));
  }

  /** Specification of `Tile::new`. */
  function TileFrom(tile: Tiles.Tile): Result<Tile, DecodeError>
  {
    match MapAll(tile.layers, LayerFrom)
    case Err(e) => Err(e)
    case Ok(ls) => Ok(Tile(ls))
  }

  /** `Tile::new`: one decoded layer per input layer, in source order. */
  method DecodeTile(tile: Tiles.Tile) returns (r: Result<Tile, DecodeError>)
    ensures r == TileFrom(tile)
    ensures r.Ok? <==> forall i :: 0 <= i < |tile.layers| ==> LayerFrom(tile.layers[i]).Ok?
    ensures r.Ok? ==> |r.value.layers| == |tile.layers| &&
                      forall i :: 0 <= i < |tile.layers| ==> Ok(r.value.layers[i]) == LayerFrom(tile.layers[i])
  {
    var layers: seq<Layer> := [];
    for i := 0 to |tile.layers|
      invariant |layers| == i
      invariant forall j :: 0 <= j < i ==> LayerFrom(tile.layers[j]) == Ok(layers[j])
    {
      var l := DecodeLayer(tile.layers[i]);
      if l.Err? {
        ghost var all := MapAll(tile.layers, LayerFrom);
        assert all.Err?;
        return Err(l.error);
      }
      layers := layers + [l.value];
    }
    ghost var all := MapAll(tile.layers, LayerFrom);
    assert all.Ok? && all.value == layers;
    return Ok(Tile(layers));
  }

  /** The input defaults decode to the empty decoded forms: the default feature (id 0,
      no tags, UNKNOWN, no geometry) to a feature with no properties and no commands,
      the default layer to an unnamed layer of extent 0 with no features, the default
      tile to a tile with no layers. */
  lemma DefaultsDecode(layer: Tiles.Layer)
    ensures FeatureFrom(Tiles.DefaultFeature(), layer) == Ok(Feature(0, map[], [], Tiles.UNKNOWN))
    ensures LayerFrom(Tiles.DefaultLayer()) == Ok(Layer("", [], 0))
    ensures TileFrom(Tiles.DefaultTile()) == Ok(Tile([]))
  {
  }
}
