/** Layers of src/layer.rs: a decoded layer generic in its feature representation,
    built from a wire layer by `decode_layer`, and the defaults it declares. The
    feature constructor is a parameter: it receives the wire feature together with the
    layer's finished key and value dictionaries. */
module Layers {
  import opened Base
  import opened Values
  import opened VectorTile

  datatype Layer<F> = Layer(
    version: u32,
    name: string,
    features: seq<F>,
    keys: seq<string>,
    values: seq<Value>,
    extent: u32)

  /** How a feature of type F is built from a wire feature and the layer's keys and values. */
  type FeatureConstructor<F> = (ProtoFeature, seq<string>, seq<Value>) -> F

  /** `#[derive(Default)]` of `Layer`: every number 0, every string and list empty. */
  function DefaultLayer<F>(): Layer<F>
  {
    Layer(0, "", [], [], [], 0)
  }

  /** `default_extent`, what deserialization fills in for a missing `extent`. */
  const DEFAULT_EXTENT: u32 := 4096

  /** The decoded values of a wire layer, in order. */
  function DecodedValues(layer: ProtoLayer): (vs: seq<Value>)
    ensures |vs| == |layer.values|
    ensures forall i :: 0 <= i < |vs| ==> vs[i] == DecodeValue(layer.values[i])
  {
    seq(|layer.values|, i requires 0 <= i < |layer.values| => DecodeValue(layer.values[i]))
  }

  /** Reference: the layer `decode_layer` builds. Every feature is constructed from the
      complete key and value dictionaries. */
  function LayerFrom<F>(layer: ProtoLayer, newFeature: FeatureConstructor<F>): Layer<F>
  {
    var values := DecodedValues(layer);
    Layer(
      layer.version,
      layer.name,
      seq(|layer.features|, i requires 0 <= i < |layer.features| => newFeature(layer.features[i], layer.keys, values)),
      layer.keys,
      values,
      GetExtent(layer))
  }

  /** `decode_layer` (and `Layer::new`): starts from the default layer, copies version,
      name and keys, pushes one decoded value per wire value, then one constructed
      feature per wire feature, and finally sets the extent. */
  method DecodeLayer<F>(layer: ProtoLayer, newFeature: FeatureConstructor<F>) returns (out: Layer<F>)
    ensures out.version == layer.version && out.name == layer.name && out.keys == layer.keys
    ensures |out.values| == |layer.values|
    ensures forall i :: 0 <= i < |layer.values| ==> out.values[i] == DecodeValue(layer.values[i])
    ensures |out.features| == |layer.features|
    ensures forall i :: 0 <= i < |layer.features| ==>
              out.features[i] == newFeature(layer.features[i], out.keys, out.values)
    ensures out.extent == GetExtent(layer)
    ensures out == LayerFrom(layer, newFeature)
  {
    out := DefaultLayer();
    out := out.(version := layer.version);
    out := out.(name := layer.name);
    out := out.(keys := layer.keys);
    for i := 0 to |layer.values|
      invariant out.version == layer.version && out.name == layer.name && out.keys == layer.keys
      invariant out.features == [] && out.extent == 0
      invariant out.values == DecodedValues(layer)[..i]
    {
      out := out.(values := out.values + [DecodeValue(layer.values[i])]);
    }
    assert out.values == DecodedValues(layer);
    for i := 0 to |layer.features|
      invariant out.version == layer.version && out.name == layer.name && out.keys == layer.keys
      invariant out.values == DecodedValues(layer) && out.extent == 0
      invariant |out.features| == i
      invariant forall k :: 0 <= k < i ==> out.features[k] == newFeature(layer.features[k], out.keys, out.values)
    {
      out := out.(features := out.features + [newFeature(layer.features[i], out.keys, out.values)]);
    }
    out := out.(extent := GetExtent(layer));
  }

  /** Adding a feature at the end of the wire layer adds exactly its constructed form at
      the end of the decoded layer and changes nothing else. */
  lemma LayerFromAppendFeature<F>(layer: ProtoLayer, f: ProtoFeature, newFeature: FeatureConstructor<F>)
    ensures var before := LayerFrom(layer, newFeature);
            var after := LayerFrom(layer.(features := layer.features + [f]), newFeature);
            after == before.(features := before.features + [newFeature(f, layer.keys, before.values)])
  {
  }

  /** The values and keys do not depend on the features, and each decoded feature
      depends only on its own wire feature and the dictionaries. */
  lemma LayerFromFeatureIndependent<F>(a: ProtoLayer, b: ProtoLayer, newFeature: FeatureConstructor<F>, i: nat, j: nat)
    requires a.keys == b.keys && a.values == b.values
    requires i < |a.features| && j < |b.features| && a.features[i] == b.features[j]
    ensures LayerFrom(a, newFeature).values == LayerFrom(b, newFeature).values
    ensures LayerFrom(a, newFeature).features[i] == LayerFrom(b, newFeature).features[j]
  {
  }

  /** An empty wire layer without an extent decodes to the default layer except for the
      extent, which takes the schema default instead of 0. */
  lemma EmptyLayerDecode<F>(newFeature: FeatureConstructor<F>)
    ensures LayerFrom(ProtoLayer(0, "", [], [], [], None), newFeature) == DefaultLayer<F>().(extent := 4096)
    ensures DefaultLayer<F>().extent == 0 && DefaultLayer<F>().version == 0 && DefaultLayer<F>().name == ""
    ensures DefaultLayer<F>().features == [] && DefaultLayer<F>().keys == [] && DefaultLayer<F>().values == []
  {
  }

  /** Reading a `Layer` from a record whose fields may each be absent: `extent` falls
      back to `default_extent`; every other field is required, so a record missing any
      of them is rejected. */
  function LayerFromFields<F>(version: Option<u32>, name: Option<string>, features: Option<seq<F>>,
                              keys: Option<seq<string>>, values: Option<seq<Value>>,
                              extent: Option<u32>): (r: Option<Layer<F>>)
    ensures r.Some? <==> version.Some? && name.Some? && features.Some? && keys.Some? && values.Some?
    ensures r.Some? ==> r.value.version == version.value && r.value.name == name.value
    ensures r.Some? ==> r.value.features == features.value && r.value.keys == keys.value
    ensures r.Some? ==> r.value.values == values.value
    ensures r.Some? ==> r.value.extent == (if extent.Some? then extent.value else 4096)
  {
    if version.None? || name.None? || features.None? || keys.None? || values.None? then None
    else
      var e := match extent case Some(x) => x case None => DEFAULT_EXTENT;
      Some(Layer(version.value, name.value, features.value, keys.value, values.value, e))
  }

  /** A serialized layer reads back unchanged, and one that lost its `extent` reads back
      with extent 4096 whatever it had. */
  lemma LayerFieldsRoundTrip<F>(l: Layer<F>)
    ensures LayerFromFields(Some(l.version), Some(l.name), Some(l.features), Some(l.keys), Some(l.values), Some(l.extent)) == Some(l)
    ensures LayerFromFields(Some(l.version), Some(l.name), Some(l.features), Some(l.keys), Some(l.values), None) == Some(l.(extent := 4096))
  {
  }
}
