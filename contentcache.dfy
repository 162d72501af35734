/**
 * The local cache of pulled content (`spin_loader::oci::cache::Cache`), as
 * far as the client uses it: a Wasm store and a data store keyed by digest,
 * and, per reference, the pulled manifest and the locked application text.
 */
module ContentCache {
  import opened Text
  import opened Distribution
  import opened Pulling

  class Cache {
    /** `<cache_root>/wasm`: Wasm modules by digest. */
    var wasm: Store
    /** `<cache_root>/data`: static assets by digest. */
    var data: Store
    /** `manifest.json` per reference. */
    var manifests: map<string, Manifest>
    /** `config.json` (the locked application) per reference. */
    var lockfiles: map<string, seq<byte>>

    constructor (wasm: Store, data: Store)
      ensures this.wasm == wasm && this.data == data
      ensures manifests == map[] && lockfiles == map[]
    {
      this.wasm := wasm;
      this.data := data;
      manifests := map[];
      lockfiles := map[];
    }

    /** `wasm_file(digest).is_ok()`. */
    predicate HasWasm(digest: Digest)
      reads this
    {
      digest in wasm
    }

    /** `data_file(digest).is_ok()`. */
    predicate HasData(digest: Digest)
      reads this
    {
      digest in data
    }

    /** `write_wasm`. */
    method WriteWasm(bytes: seq<byte>, digest: Digest)
      modifies this
      ensures wasm == old(wasm)[digest := bytes]
      ensures data == old(data) && manifests == old(manifests) && lockfiles == old(lockfiles)
    {
      wasm := wasm[digest := bytes];
    }

    /** `write_data`. */
    method WriteData(bytes: seq<byte>, digest: Digest)
      modifies this
      ensures data == old(data)[digest := bytes]
      ensures wasm == old(wasm) && manifests == old(manifests) && lockfiles == old(lockfiles)
    {
      data := data[digest := bytes];
    }

    /** Writing `manifest.json` at `oci_manifest_path(reference)`. */
    method WriteManifest(reference: string, manifest: Manifest)
      modifies this
      ensures manifests == old(manifests)[reference := manifest]
      ensures wasm == old(wasm) && data == old(data) && lockfiles == old(lockfiles)
    {
      manifests := manifests[reference := manifest];
    }

    /** Writing `config.json` at `lockfile_path(reference)`. */
    method WriteLockfile(reference: string, config: seq<byte>)
      modifies this
      ensures lockfiles == old(lockfiles)[reference := config]
      ensures wasm == old(wasm) && data == old(data) && manifests == old(manifests)
    {
      lockfiles := lockfiles[reference := config];
    }
  }
}
