/**
 * The vocabulary shared by push and pull: the three media types, image
 * layers, manifest descriptors and registry references.
 */
module Distribution {
  import opened Text

  /** Media type of the config blob that carries the locked application. */
  const SpinApplicationMediaType: string := "application/vnd.fermyon.spin.application.v1+config"
  /** Media type of a layer holding a Wasm module. */
  const WasmLayerMediaType: string := "application/vnd.wasm.content.layer.v1+wasm"
  /** Media type of a layer holding a static asset. */
  const DataMediaType: string := "application/vnd.wasm.content.layer.v1+data"

  /** A content digest, `sha256:<hex>`; the hash itself is a parameter of the model. */
  type Digest = string

  /** `ImageLayer`: raw bytes and a media type; its digest is the hash of the bytes. */
  datatype Layer = Layer(data: seq<byte>, mediaType: string)

  /** A manifest entry: what a layer is and which blob holds it. */
  datatype Descriptor = Descriptor(mediaType: string, digest: Digest)

  /** The part of an image manifest this client reads. */
  datatype Manifest = Manifest(config: Descriptor, layers: seq<Descriptor>)

  /**
   * A parsed reference: the registry host that credentials are looked up
   * under (`resolve_registry`) and the reference's canonical text
   * (`to_string`), which keys the local metadata cache.
   */
  datatype Reference = Reference(resolvedRegistry: string, canonical: string)

  /** `wasm_layer` once the module file has been read. */
  function WasmLayer(bytes: seq<byte>): Layer
  {
    Layer(bytes, WasmLayerMediaType)
  }

  /** `data_layer` once the asset file has been read. */
  function DataLayer(bytes: seq<byte>): Layer
  {
    Layer(bytes, DataMediaType)
  }

  /** The manifest entries of layers, in order, as `OciImageManifest::build` derives them. */
  function Descriptors(layers: seq<Layer>, sha256: seq<byte> -> Digest): seq<Descriptor>
    decreases |layers|
  {
    if |layers| == 0 then []
    else [Descriptor(layers[0].mediaType, sha256(layers[0].data))] + Descriptors(layers[1..], sha256)
  }

  /** `OciImageManifest::build` for a config blob and layers. */
  function BuildManifest(layers: seq<Layer>, configData: seq<byte>, sha256: seq<byte> -> Digest): Manifest
  {
    Manifest(Descriptor(SpinApplicationMediaType, sha256(configData)), Descriptors(layers, sha256))
  }

  /** The manifest lists every layer once, in order, with its media type and the digest of its bytes. */
  lemma {:induction false} ManifestListsLayers(layers: seq<Layer>, configData: seq<byte>, sha256: seq<byte> -> Digest)
    ensures var m := BuildManifest(layers, configData, sha256);
      && m.config == Descriptor(SpinApplicationMediaType, sha256(configData))
      && |m.layers| == |layers|
      && forall i :: 0 <= i < |layers| ==> m.layers[i] == Descriptor(layers[i].mediaType, sha256(layers[i].data))
    decreases |layers|
  {
    if |layers| > 0 {
      ManifestListsLayers(layers[1..], configData, sha256);
    }
  }

  /** The three media types are pairwise distinct, so classification by media type is sound. */
  lemma MediaTypesDistinct()
    ensures WasmLayerMediaType != DataMediaType
    ensures WasmLayerMediaType != SpinApplicationMediaType
    ensures DataMediaType != SpinApplicationMediaType
  {
    assert WasmLayerMediaType[|WasmLayerMediaType| - 1] != DataMediaType[|DataMediaType| - 1];
    assert WasmLayerMediaType[26] != SpinApplicationMediaType[26];
    assert DataMediaType[26] != SpinApplicationMediaType[26];
  }
}
