# Spin OCI client: a verified model

This project models the bookkeeping core of Spin's OCI registry client
(`crates/oci/src/lib.rs`): how `Client::push` rewrites a locked
application into content-addressed layers, how `Client::pull` fills the
local content cache from a manifest, how `Client::auth` picks the
credentials for a registry, and how the credential table (`AuthConfig`)
stores and reads them back. The file system, the registry, SHA-256, the
Docker credential helper and the serialisers are parameters of the model.

Modules, one per concern of the client:

- `Wrappers`: `Option` and `Result`.
- `Text`: bytes, UTF-8 validity (the well-formed sequences of table 3-7 of
  the Unicode Standard, chapter 3) and `splitn(2, ':')` as a split at the
  first separator.
- `Base64`: the standard alphabet with padding of section 4 of RFC 4648, in
  both directions. Decoding is strict: padding must be canonical and the
  unused bits of the last symbol must be zero. Both round trips are proved.
- `Distribution`: the three media types, layers, descriptors, manifests and
  parsed references, and how a manifest lists the layers it is built from.
- `Credentials`: `load_default`, `get_auth_from_default`, `Client::auth`,
  and the class `AuthConfig` whose `Insert` updates the table in place.
- `Locking`: the component, mount and walk loops of `push`, as methods
  (`LockForPush`, `GatherMounts`, `GatherMount`) proved against recursive
  specification functions (`ComponentsFrom`, `MountsFrom`, `WalkFrom`),
  with lemmas relating these to independent descriptions of the result
  (`RegularFiles`, `FilesOf`, `Described`, `Expected`).
- `Pulling`: the layer loop of `pull` as a function of the two stores, with
  lemmas against an independent description of the digests to fetch
  (`Misses`) and of where each goes (`FirstMediaType`).
- `ContentCache`: the class `Cache` with its Wasm store, data store and the
  per-reference manifest and lockfile.
- `Client`: the class `Client` with `Push`, `Pull` and the static `Login`,
  and the lemmas that connect login to auth and push to pull.

The push code emits one data layer for every regular file it walks, in
walk order (crates/oci/src/lib.rs:99-118). Two files with equal content
give two layers with the same digest, and nothing merges them.
`Locking.LayerMediaTypes` states the layer count that results.

## Model

| member | source | states |
|---|---|---|
| `Distribution.MediaTypesDistinct` | crates/oci/src/lib.rs:26-28 | The application, Wasm-layer and data-layer media types are pairwise distinct, so classifying by media type is unambiguous. |
| `Distribution.WasmLayer` | crates/oci/src/lib.rs:198-206 | No contract of its own: a layer of the module's bytes with the Wasm layer media type; `Distribution.MediaTypesDistinct`, `Locking.ComponentsFromGrows` and `Locking.LayerMediaTypes` state what it contributes to a push. |
| `Distribution.DataLayer` | crates/oci/src/lib.rs:208-216 | No contract of its own: a layer of an asset's bytes with the data media type; `Locking.FilesOfAt` and `Locking.LayerMediaTypes` state where it occurs. |
| `Distribution.ManifestListsLayers` | crates/oci/src/lib.rs:127-132 | The manifest has a config descriptor with the application media type and the digest of the config bytes, and one descriptor per layer, in order, with the layer's media type and the digest of its bytes. |
| `Base64.DecodeEncode` | crates/oci/src/lib.rs:347-350 | Decoding the base 64 text of any byte string gives that byte string back. |
| `Base64.EncodeDecode` | crates/oci/src/lib.rs:371 | Every text the strict decoder accepts is exactly the encoding of what it decodes to. |
| `Base64.Encode` | crates/oci/src/lib.rs:347-350 | The encoding has four characters per started group of three bytes. |
| `Text.SplitOnce` | crates/oci/src/lib.rs:373 | The split finds no separator exactly when none occurs; otherwise the text is head, separator, tail, and the head holds no separator. |
| `Text.SplitOnceJoin` | crates/oci/src/lib.rs:373 | Splitting `a ':' b` at the first ':' gives back `(a, b)` whenever `a` holds no ':', whatever `b` holds. |
| `Text.JoinIsUtf8` | crates/oci/src/lib.rs:349 | Joining two UTF-8 strings with ':' gives UTF-8 text. |
| `Credentials.LoadDefault` | crates/oci/src/lib.rs:323-331 | Missing configuration directory is an error; a credential file that cannot be loaded gives an empty table; otherwise the stored table. |
| `Base64.Decode` | crates/oci/src/lib.rs:371 | No contract of its own: the strict STANDARD decoder; `Base64.DecodeEncode` and `Base64.EncodeDecode` prove it is exactly the inverse of `Base64.Encode`. |
| `Credentials.DecodeCredential` | crates/oci/src/lib.rs:371-385 | A stored value that decodes gives `Basic` with a user name free of ':'. |
| `Credentials.Lookup` | crates/oci/src/lib.rs:366-385 | A host with no entry, and only such a host, gives the "no credentials" error; a successful lookup gives `Basic` with a user name free of ':'; `Credentials.LookupAfterInsert` states the lookup after an insert. |
| `Credentials.GetAuthFromDefault` | crates/oci/src/lib.rs:364-386 | A missing configuration directory fails with that error; the result is a credential exactly when the directory exists, the loaded file holds an entry for the host and that entry decodes; `Credentials.Auth`, `Credentials.StoredCredentialWins` and `Credentials.HelperFallback` use it. |
| `Credentials.CredentialRoundTrip` | crates/oci/src/lib.rs:341-385 | The value `insert` stores always decodes, and decodes to exactly the stored pair if and only if the user name holds no ':'. |
| `Credentials.DecodedIsCanonical` | crates/oci/src/lib.rs:364-385 | Every stored value that decodes is precisely the value `insert` would store for the pair it decodes to. |
| `Credentials.LookupAfterInsert` | crates/oci/src/lib.rs:364-386 | After storing a pair for a host, with a user name without ':' and UTF-8 user name and password, looking that host up gives the pair; other hosts look up as before. |
| `Credentials.StripTrailingSlash` | crates/oci/src/lib.rs:274-277 | At most one trailing '/' is removed, and one is removed whenever present. |
| `Credentials.Auth` | crates/oci/src/lib.rs:273-297 | Resolution never fails, and yields `Basic` if and only if the stored table has a decodable entry for the host or the Docker helper returns a user name and password. |
| `Credentials.StoredCredentialWins` | crates/oci/src/lib.rs:279-280 | When the stored table answers, its answer is the result and the Docker helper does not matter. |
| `Credentials.HelperFallback` | crates/oci/src/lib.rs:281-295 | Otherwise the helper's user name and password give `Basic`; a helper error or identity token gives `Anonymous`. |
| `Credentials.AuthIgnoresTrailingSlash` | crates/oci/src/lib.rs:274-277 | A registry written with one trailing '/' resolves exactly as without it. |
| `Credentials.AuthAfterInsert` | crates/oci/src/lib.rs:273-297 | Once a pair is stored for the lookup host, with a user name without ':' and UTF-8 user name and password, auth yields exactly that pair, whatever the helper holds. |
| `Credentials.AuthConfig.Insert` | crates/oci/src/lib.rs:341-354 | The table becomes the old table with the host mapped to base64(`user:pass`); every other host is unchanged. |
| `Locking.GatherMount` | crates/oci/src/lib.rs:99-118 | The walk loop of one mount computes exactly `WalkFrom`. |
| `Locking.GatherMounts` | crates/oci/src/lib.rs:91-119 | The mount loop of one component computes exactly `MountsFrom`. |
| `Locking.LockForPush` | crates/oci/src/lib.rs:67-125 | The component loop, the "origin" removal and the result compute exactly `LockApp`. |
| `Locking.WalkFromSpec` | crates/oci/src/lib.rs:99-118 | A walk succeeds if and only if it reports no error and every regular file is readable and under the root; it then appends one data layer and one file entry per regular file, in walk order, and nothing for directories or symbolic links. |
| `Locking.EmptyMountAddsNothing` | crates/oci/src/lib.rs:99-101 | A mount with no regular file adds no layer and no file entry. |
| `Locking.FilesOfAt` | crates/oci/src/lib.rs:105-117 | The k-th regular file gives the data layer of its bytes and an entry with no source, the digest of those bytes, and its path relative to the mount root. |
| `Locking.FilesOfDescribed` | crates/oci/src/lib.rs:107-116 | Each file entry refers to the digest of the data layer at the same position. |
| `Locking.MountsFromSpec` | crates/oci/src/lib.rs:90-119 | The mount loop succeeds if and only if every mount has a file source and walks cleanly, and then appends, mount by mount in order, the data layers and file entries of each root's regular files. |
| `Locking.MountedFilesAt` | crates/oci/src/lib.rs:99-118 | Every regular file of every mount's walk yields a file entry at its path relative to that mount's root, with the digest of its bytes. |
| `Locking.MountsFromExtends` | crates/oci/src/lib.rs:91-119 | The mount loop keeps the layers and entries gathered before it and adds data layers matching its file entries one for one. |
| `Locking.MountsFromMissingSource` | crates/oci/src/lib.rs:92-95 | A mount with no source makes the mount loop fail. |
| `Locking.ComponentsFromGrows` | crates/oci/src/lib.rs:67-123 | The component loop appends, per component, its Wasm layer and then one data layer per file entry, each referring to the digest in the rewritten component. |
| `Locking.ComponentsFromRewrites` | crates/oci/src/lib.rs:69-85 | Every component is kept in order with id and content type unchanged, its module reference replaced by `{source: None, digest: sha256(module bytes)}`, and its file entries exactly those its own mounts contribute (`MountedFiles`). |
| `Locking.ComponentsFromMissingSource` | crates/oci/src/lib.rs:69-95 | A component whose module or one of whose mounts has no source makes the loop fail. |
| `Locking.ComponentsFromSucceeds` | crates/oci/src/lib.rs:69-123 | The component loop succeeds if and only if every remaining component is pushable: its module resolves to a readable file and each of its mounts resolves to a root whose walk succeeds. |
| `Locking.LockAppSucceeds` | crates/oci/src/lib.rs:67-125 | The rewrite succeeds if and only if every component of the application is pushable. |
| `Locking.LockAppSpec` | crates/oci/src/lib.rs:67-125 | The whole rewrite: fails on a missing source; on success the metadata loses "origin" and nothing else, components keep their order and are rewritten to digests, each carries exactly the file entries of its own mounts at paths relative to their roots, and the layers are what the rewritten components call for. |
| `Locking.ExpectedHasNoSources` | crates/oci/src/lib.rs:81-84 | After the rewrite no module and no file entry keeps a local source, and each has a digest. |
| `Locking.LayerMediaTypes` | crates/oci/src/lib.rs:76-110 | A successful rewrite pushes exactly one Wasm layer per component and one data layer per file entry, and nothing else. |
| `Locking.LayerCount` | crates/oci/src/lib.rs:64-79 | There are as many layers as components plus file entries. |
| `Pulling.PullFrom` | crates/oci/src/lib.rs:173-190 | No contract of its own: the layer loop of the pull; `Pulling.PullFetchesMisses`, `Pulling.PullStoresFetched` and `Pulling.PullClassifies` describe it against `Pulling.Misses` and `Pulling.FirstMediaType`, and `Client.Client.Pull` is proved to leave the cache's stores exactly as it does. |
| `Pulling.MissesFresh` | crates/oci/src/lib.rs:173-180 | The digests to fetch are not cached beforehand and are pairwise distinct. |
| `Pulling.MissesCover` | crates/oci/src/lib.rs:173-180 | Every layer digest is cached beforehand or among the digests to fetch. |
| `Pulling.PullFetchesMisses` | crates/oci/src/lib.rs:173-185 | The loop fetches the uncached digests in order of first appearance; it completes if and only if the registry serves all of them, and otherwise stops at the first it cannot serve, which is the one right after those it fetched. |
| `Pulling.NeverFetchesCached` | crates/oci/src/lib.rs:174-180 | A digest already in either store is never fetched, and no digest is fetched twice. |
| `Pulling.PullStoresFetched` | crates/oci/src/lib.rs:183-190 | Each blob is written before the next fetch, so every digest the loop fetched is in one of the stores afterwards, also when a later fetch fails. |
| `Pulling.PullClassifies` | crates/oci/src/lib.rs:186-190 | Stored entries are kept; each new entry holds the fetched blob of a previously uncached digest, in the Wasm store exactly when its first layer has the Wasm media type and in the data store otherwise. |
| `Pulling.PullCompletes` | crates/oci/src/lib.rs:173-191 | After a complete loop every layer of the manifest is in one of the stores. |
| `Pulling.PullAgainFetchesNothing` | crates/oci/src/lib.rs:173-180 | Pulling the same manifest again fetches nothing and changes nothing. |
| `ContentCache.Cache.HasWasm` | crates/oci/src/lib.rs:175 | No contract of its own: whether the Wasm store holds the digest; `Client.Client.Pull` skips a layer for which it or `ContentCache.Cache.HasData` holds. |
| `ContentCache.Cache.HasData` | crates/oci/src/lib.rs:176 | No contract of its own: whether the data store holds the digest; see `ContentCache.Cache.HasWasm`. |
| `ContentCache.Cache.WriteWasm` | crates/oci/src/lib.rs:188 | The Wasm store maps the digest to the bytes; nothing else changes. |
| `ContentCache.Cache.WriteData` | crates/oci/src/lib.rs:189 | The data store maps the digest to the bytes; nothing else changes. |
| `ContentCache.Cache.WriteManifest` | crates/oci/src/lib.rs:157-158 | The manifest is recorded under the reference; nothing else changes. |
| `ContentCache.Cache.WriteLockfile` | crates/oci/src/lib.rs:168-169 | The locked application is recorded under the reference; nothing else changes. |
| `Client.PushedUpload` | crates/oci/src/lib.rs:127-138 | No contract of its own: the layers of the rewrite, the serialized application as config, the manifest built from them and the resolved auth; `Client.Client.Push` ensures it is what is uploaded when the registry accepts it, and `Distribution.ManifestListsLayers` and `Client.PushThenPull` describe the manifest. |
| `Client.Client.Push` | crates/oci/src/lib.rs:47-143 | A bad reference fails; a failed rewrite fails with its cause; otherwise the upload is the rewrite's layers, the serialized application as config, the manifest built from them and the resolved auth, and the push fails if the registry refuses it. |
| `Client.Client.Pull` | crates/oci/src/lib.rs:146-196 | Bad reference or missing manifest: nothing is cached. Then the manifest is cached; a missing or non-UTF-8 config stops there; otherwise the config is cached and the stores and result are those of the layer loop. |
| `Client.LoginServer` | crates/oci/src/lib.rs:224-229 | No contract of its own: the URL's host when the server parses as a URL with a host, else the text; `Client.Client.Login` validates and stores under it, and `Client.LoginThenAuth` relies on it. |
| `Client.Client.Login` | crates/oci/src/lib.rs:219-240 | Credentials are validated against the URL host (or the text) first; a failed validation, a missing configuration directory or a failed save persists nothing; on success the file holds the loaded table with the encoded pair under the host. |
| `Client.LoginThenAuth` | crates/oci/src/lib.rs:236-239 | The table a successful login saves makes every reference to that host, with or without one trailing '/', authenticate with exactly the stored pair, for a user name without ':' and UTF-8 user name and password. |
| `Client.PushThenPull` | crates/oci/src/lib.rs:173-191 | Pulling a pushed manifest from a registry that serves the pushed blobs completes from any starting stores and leaves every layer's digest in one of them; a layer whose digest neither store held beforehand is cached with that layer's bytes, so into an empty cache every pushed layer's bytes are cached under its digest. |

## Left out

- Registry network calls (`oci.push`, `pull_image_manifest`, `pull_blob`, the `dkregistry` authentication) are oracles: the manifest and blob a reference leads to, whether an upload is accepted, and whether credentials validate.
- File I/O (`fs::read`, `fs::write`, `tokio::fs`, `tempfile`) and the traversal of `WalkDir` are a map from paths to bytes and, per root, the list of entries the walk yields. Writes to the cache and to the manifest and lockfile paths always succeed; the cache-path helpers are not part of this model.
- SHA-256 (`sha256_digest`) is a parameter of the model. No lemma needs it to be injective.
- Serialisation (serde_json of the locked application, the manifest and the credential file) is a parameter or left out; the cache keeps the manifest value itself.
- `build_locked_app`, `parse_file_url` and `to_relative` are not part of this model: the locked application is an input, `parse_file_url` is an oracle, and a path relative to the root is the path with the root's components removed, failing when the path is not under the root.
- `Url` parsing in login and `Reference` parsing are oracles. A parsed reference is its resolved registry and its canonical text.
- `docker_credential::get_credential` is an oracle that returns a credential or nothing; `dirs::config_dir` is a flag.
- Tracing and logging are left out. The trace call in the walk evaluates `to_relative` only when tracing is on; the model takes tracing as off, so an unreadable file is reported before a path outside the root.
- `build_config`, `Client::new`, `Cache::new` and `validate_credentials`' client construction are left out: they configure libraries and compute nothing this model reasons about.
- Async execution is modelled as sequential calls.
- `OciImageManifest::build` is modelled as one descriptor per layer plus the config descriptor; sizes and annotations are left out.
- `Credentials.AuthConfig.Insert`: the source's `insert` returns a `Result` that is always `Ok`; the method has no result.
- `Client.Client.Login`: a failed save is modelled as leaving the file unchanged; a partial write is not modelled.
- `Client.Client.Pull`: the manifest digest returned by the registry is only logged, so it is left out; the result on success is the list of digests fetched rather than `()`.
- User names, passwords and the decoded credential text are byte strings; Rust's `str` guarantees they are UTF-8, which the round-trip lemmas take as a precondition.
