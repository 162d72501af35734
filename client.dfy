/**
 * `Client`: pushing a locked application to a registry, pulling one into
 * the local cache, and logging in to a registry.
 *
 * The registry is a pair of oracles (the manifest a reference and
 * authentication lead to, and the blob a digest names); the upload of a
 * push is returned as the value the registry receives, with an oracle for
 * whether the registry accepts it.
 */
module Client {
  import opened Wrappers
  import opened Text
  import opened Distribution
  import opened Credentials
  import opened Locking
  import opened Pulling
  import opened ContentCache

  /** What the registry serves. */
  datatype Registry = Registry(
    manifest: (Reference, RegistryAuth) -> Option<Manifest>,
    blob: (Reference, Digest) -> Option<seq<byte>>)

  /** What `oci.push` sends: the layers, the config blob, the manifest and the authentication. */
  datatype Upload = Upload(reference: Reference, layers: seq<Layer>, config: seq<byte>, manifest: Manifest, auth: RegistryAuth)

  datatype ClientError =
    | BadReference(text: string)
    | Rewrite(rewriteError: PushError)
    | PushRejected
    | ManifestUnavailable(reference: string)
    | BlobUnavailable(digest: Digest)
    | ConfigNotUtf8
    | InvalidCredentials(server: string)
    | CredentialStore(authError: AuthError)
    | SaveFailed

  /** `pull_blob` for one reference. */
  function BlobsOf(registry: Registry, reference: Reference): Digest -> Option<seq<byte>>
  {
    d => registry.blob(reference, d)
  }

  /** How the outcome of the layer loop is reported by `pull`. */
  function Reported(p: Pulled): Result<seq<Digest>, ClientError>
  {
    match p.missing
    case None => Success(p.fetched)
    case Some(d) => Failure(BlobUnavailable(d))
  }

  /**
   * The registry host that `login` stores credentials under: the host of the
   * server when it parses as a URL with a host, else the server text itself.
   */
  function LoginServer(server: string, hostOf: string -> Option<string>): string
  {
    match hostOf(server)
    case Some(host) => host
    case None => server
  }

  /**
   * What a push uploads, when the rewrite succeeds: the layers of the
   * rewrite, the serialized rewritten application as config, and the
   * manifest listing them.
   */
  function PushedUpload(reference: Reference, app: LockedApp, ws: Workspace, env: CredentialEnv,
                        serialize: LockedApp -> seq<byte>): Result<Upload, ClientError>
  {
    match LockApp(app, ws)
    case Failure(e) => Failure(Rewrite(e))
    case Success(pushed) =>
      var config := serialize(pushed.0);
      Success(Upload(reference, pushed.1, config, BuildManifest(pushed.1, config, ws.sha256), Auth(reference, env).value))
  }

  class Client {
    /** The global cache for pulled content. */
    const cache: Cache

    constructor (cache: Cache)
      ensures this.cache == cache
    {
      this.cache := cache;
    }

    /**
     * `push`: parse the reference, resolve the authentication, rewrite the
     * application into layers, and upload the layers, the config and the
     * manifest.  The cache is not touched.
     */
    method Push(app: LockedApp, reference: string, parse: string -> Option<Reference>, env: CredentialEnv,
                ws: Workspace, serialize: LockedApp -> seq<byte>, accepts: Upload -> bool)
      returns (r: Result<Upload, ClientError>)
      ensures parse(reference).None? ==> r == Failure(BadReference(reference))
      ensures parse(reference).Some? ==>
        var u := PushedUpload(parse(reference).value, app, ws, env, serialize);
        && (u.Failure? ==> r == u)
        && (u.Success? ==> r == if accepts(u.value) then u else Failure(PushRejected))
    {
      var parsed := parse(reference);
      if parsed.None? {
        return Failure(BadReference(reference));
      }
      var ref := parsed.value;
      var auth := Auth(ref, env).value;
      var locked := LockForPush(app, ws);
      if locked.Failure? {
        return Failure(Rewrite(locked.error));
      }
      var (pushed, layers) := locked.value;
      var config := serialize(pushed);
      var manifest := BuildManifest(layers, config, ws.sha256);
      var upload := Upload(ref, layers, config, manifest, auth);
      if !accepts(upload) {
        return Failure(PushRejected);
      }
      return Success(upload);
    }

    /**
     * `pull`: parse the reference, resolve the authentication, fetch the
     * manifest and cache it, fetch the config and cache it once it is known
     * to be UTF-8 text, then run the layer loop.  A successful pull returns
     * the digests it fetched, in order.
     */
    method Pull(reference: string, parse: string -> Option<Reference>, env: CredentialEnv, registry: Registry)
      returns (r: Result<seq<Digest>, ClientError>)
      modifies cache
      ensures parse(reference).None? ==> r == Failure(BadReference(reference)) && unchanged(cache)
      ensures parse(reference).Some? ==>
        var ref := parse(reference).value;
        var manifest := registry.manifest(ref, Auth(ref, env).value);
        && (manifest.None? ==> r == Failure(ManifestUnavailable(ref.canonical)) && unchanged(cache))
        && (manifest.Some? ==> cache.manifests == old(cache.manifests)[ref.canonical := manifest.value])
      ensures parse(reference).Some? ==>
        var ref := parse(reference).value;
        var manifest := registry.manifest(ref, Auth(ref, env).value);
        manifest.Some? ==>
          var m := manifest.value;
          var config := registry.blob(ref, m.config.digest);
          if config.None? || !ValidUtf8(config.value) then
            && r == Failure(if config.None? then BlobUnavailable(m.config.digest) else ConfigNotUtf8)
            && cache.wasm == old(cache.wasm) && cache.data == old(cache.data)
            && cache.lockfiles == old(cache.lockfiles)
          else
            var p := PullFrom(m.layers, old(cache.wasm), old(cache.data), [], BlobsOf(registry, ref));
            && cache.lockfiles == old(cache.lockfiles)[ref.canonical := config.value]
            && cache.wasm == p.wasm && cache.data == p.data
            && r == Reported(p)
    {
      var parsed := parse(reference);
      if parsed.None? {
        return Failure(BadReference(reference));
      }
      var ref := parsed.value;
      var auth := Auth(ref, env).value;
      var manifest := registry.manifest(ref, auth);
      if manifest.None? {
        return Failure(ManifestUnavailable(ref.canonical));
      }
      var m := manifest.value;
      cache.WriteManifest(ref.canonical, m);
      var config := registry.blob(ref, m.config.digest);
      if config.None? {
        return Failure(BlobUnavailable(m.config.digest));
      }
      if !ValidUtf8(config.value) {
        return Failure(ConfigNotUtf8);
      }
      cache.WriteLockfile(ref.canonical, config.value);
      var fetch := BlobsOf(registry, ref);
      var fetched: seq<Digest> := [];
      var k := 0;
      while k < |m.layers|
        invariant 0 <= k <= |m.layers|
        invariant PullFrom(m.layers, old(cache.wasm), old(cache.data), [], fetch)
               == PullFrom(m.layers[k..], cache.wasm, cache.data, fetched, fetch)
        invariant cache.manifests == old(cache.manifests)[ref.canonical := m]
        invariant cache.lockfiles == old(cache.lockfiles)[ref.canonical := config.value]
      {
        var layer := m.layers[k];
        assert m.layers[k..][1..] == m.layers[k + 1..];
        if cache.HasWasm(layer.digest) || cache.HasData(layer.digest) {
          k := k + 1;
          continue;
        }
        var bytes := fetch(layer.digest);
        if bytes.None? {
          return Failure(BlobUnavailable(layer.digest));
        }
        if layer.mediaType == WasmLayerMediaType {
          cache.WriteWasm(bytes.value, layer.digest);
        } else {
          cache.WriteData(bytes.value, layer.digest);
        }
        fetched := fetched + [layer.digest];
        k := k + 1;
      }
      assert m.layers[k..] == [];
      return Success(fetched);
    }

    /**
     * `login`: validate the credentials against the registry first; only
     * then load the credential table, store the pair under the server's
     * host, and save the table.  A failed validation leaves the file as it was.
     */
    static method Login(server: string, username: seq<byte>, password: seq<byte>,
                        hostOf: string -> Option<string>, validate: (string, seq<byte>, seq<byte>) -> bool,
                        configDir: bool, saves: bool, file: AuthFile)
      returns (r: Result<(), ClientError>)
      modifies file
      ensures var host := LoginServer(server, hostOf);
        && (!validate(host, username, password) ==> r == Failure(InvalidCredentials(host)) && unchanged(file))
        && (validate(host, username, password) && !configDir ==> r == Failure(CredentialStore(NoConfigDir)) && unchanged(file))
        && (validate(host, username, password) && configDir && !saves ==> r == Failure(SaveFailed) && unchanged(file))
        && (validate(host, username, password) && configDir && saves ==>
              && r == Success(())
              && var saved := LoadDefault(configDir, old(file.stored)).value;
                 file.stored == Some(saved[host := EncodeCredential(username, password)]))
    {
      var host := LoginServer(server, hostOf);
      if !validate(host, username, password) {
        return Failure(InvalidCredentials(host));
      }
      var loaded := LoadDefault(configDir, file.stored);
      if loaded.Failure? {
        return Failure(CredentialStore(loaded.error));
      }
      var auth := new AuthConfig(loaded.value);
      auth.Insert(host, username, password);
      if !saves {
        return Failure(SaveFailed);
      }
      file.stored := Some(auth.auths);
      return Success(());
    }
  }

  /**
   * After a successful login, every reference whose registry is the login
   * host (with or without one trailing '/') authenticates with the pair that
   * was stored, whatever the Docker helper holds: `saved` is the table
   * `Login` leaves in the credential file that held `before`.
   */
  lemma LoginThenAuth(before: Option<AuthTable>, host: string, username: seq<byte>, password: seq<byte>,
                      reference: Reference, helper: string -> Option<DockerCredential>)
    requires ValidUtf8(username) && ValidUtf8(password) && Colon !in username
    requires StripTrailingSlash(reference.resolvedRegistry) == host
    ensures var saved := LoadDefault(true, before).value[host := EncodeCredential(username, password)];
      Auth(reference, CredentialEnv(true, Some(saved), helper)) == Success(Basic(username, password))
  {
    var table := LoadDefault(true, before).value;
    AuthAfterInsert(reference, CredentialEnv(true, Some(table[host := EncodeCredential(username, password)]), helper),
                    table, username, password);
  }

  /**
   * Push then pull: when the registry serves every pushed layer under the
   * digest of its bytes, pulling the pushed manifest completes from any
   * starting stores and leaves every layer's digest in one of them; a layer
   * whose digest neither store held beforehand is stored with that layer's
   * bytes (so, into an empty cache, every layer is).
   */
  lemma PushThenPull(u: Upload, ws: Workspace, fetch: Digest -> Option<seq<byte>>, wasm: Store, data: Store)
    requires u.manifest == BuildManifest(u.layers, u.config, ws.sha256)
    requires forall i :: 0 <= i < |u.layers| ==> fetch(ws.sha256(u.layers[i].data)) == Some(u.layers[i].data)
    ensures var p := PullFrom(u.manifest.layers, wasm, data, [], fetch);
      && p.missing.None?
      && forall i :: 0 <= i < |u.layers| ==>
           var d := ws.sha256(u.layers[i].data);
           && (d in p.wasm || d in p.data)
           && (d !in wasm && d !in data ==>
                 (d in p.wasm && p.wasm[d] == u.layers[i].data) || (d in p.data && p.data[d] == u.layers[i].data))
  {
    var ds := u.manifest.layers;
    ManifestListsLayers(u.layers, u.config, ws.sha256);
    var known := wasm.Keys + data.Keys;
    PullFetchesMisses(ds, wasm, data, [], fetch);
    forall d <- Misses(ds, known)
      ensures fetch(d).Some?
    {
      var i :| 0 <= i < |Misses(ds, known)| && Misses(ds, known)[i] == d;
      MissesFromLayers(ds, known, i);
    }
    PullCompletes(ds, wasm, data, [], fetch);
    PullClassifies(ds, wasm, data, [], fetch);
  }

  /** Every miss is the digest of some layer. */
  lemma {:induction false} MissesFromLayers(layers: seq<Descriptor>, known: set<Digest>, i: nat)
    requires i < |Misses(layers, known)|
    ensures exists j :: 0 <= j < |layers| && layers[j].digest == Misses(layers, known)[i]
    decreases |layers|
  {
    var d := layers[0].digest;
    if d in known {
      MissesFromLayers(layers[1..], known, i);
      var j :| 0 <= j < |layers[1..]| && layers[1..][j].digest == Misses(layers[1..], known)[i];
      assert layers[j + 1] == layers[1..][j];
    } else if i > 0 {
      MissesFromLayers(layers[1..], known + {d}, i - 1);
      var j :| 0 <= j < |layers[1..]| && layers[1..][j].digest == Misses(layers[1..], known + {d})[i - 1];
      assert layers[j + 1] == layers[1..][j];
    } else {
      assert layers[0].digest == Misses(layers, known)[0];
    }
  }
}
