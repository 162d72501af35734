/**
 * The push-side rewrite of a locked application (the component loop of
 * `Client::push`): every module becomes a Wasm layer, every regular file
 * under a mount directory becomes a data layer, and the application is
 * rewritten to refer to content digests instead of local files.
 *
 * The file system is a map from paths to the bytes `fs::read` returns, plus
 * the entries `WalkDir` yields for a root, in the order it yields them.
 * SHA-256 is a parameter.
 */
module Locking {
  import opened Wrappers
  import opened Text
  import opened Distribution

  /** A file-system path as its components. */
  type Path = seq<string>

  /** `ContentRef`: a local source (a `file://` URL) and/or a content digest. */
  datatype ContentRef = ContentRef(source: Option<string>, digest: Option<Digest>)

  /** `ContentPath`: content placed at a path. */
  datatype ContentPath = ContentPath(content: ContentRef, path: Path)

  /** `LockedComponentSource`: the module of a component. */
  datatype ComponentSource = ComponentSource(contentType: string, content: ContentRef)

  /** The parts of `LockedComponent` the push touches or must keep. */
  datatype LockedComponent = LockedComponent(id: string, source: ComponentSource, files: seq<ContentPath>)

  /** The parts of `LockedApp` the push touches; metadata values are kept opaque. */
  datatype LockedApp = LockedApp(metadata: map<string, string>, components: seq<LockedComponent>)

  datatype FileKind = RegularFile | Directory | Symlink

  /** One item yielded by `WalkDir`: an entry, or an error. */
  datatype WalkItem = Entry(path: Path, kind: FileKind) | WalkFailure

  /**
   * The local machine as the push sees it: the readable files, the walk of
   * each root, `parse_file_url`, and the SHA-256 digest function.
   */
  datatype Workspace = Workspace(
    files: map<Path, seq<byte>>,
    walk: Path -> seq<WalkItem>,
    fileUrl: string -> Option<Path>,
    sha256: seq<byte> -> Digest)

  datatype PushError =
    | MissingModuleSource(component: string)
    | MissingFileSource(component: string)
    | NotAFileUrl(url: string)
    | Unreadable(path: Path)
    | WalkFailed(root: Path)
    | NotUnderRoot(path: Path, root: Path)

  /** Layers and file entries gathered so far (the `layers` and `files` vectors). */
  datatype Gathered = Gathered(layers: seq<Layer>, files: seq<ContentPath>)

  /** Layers and rewritten components gathered so far (`layers` and `components`). */
  datatype Bundle = Bundle(layers: seq<Layer>, components: seq<LockedComponent>)

  /** The metadata key that records where the application was loaded from. */
  const OriginKey: string := "origin"

  predicate IsPrefix(root: Path, p: Path)
  {
    |root| <= |p| && p[..|root|] == root
  }

  /** The reference to bytes once they have been turned into a layer. */
  function Digested(bytes: seq<byte>, ws: Workspace): ContentRef
  {
    ContentRef(None, Some(ws.sha256(bytes)))
  }

  /** The directory a file mount refers to. */
  function MountRoot(f: ContentPath, id: string, ws: Workspace): Result<Path, PushError>
  {
    match f.content.source
    case None => Failure(MissingFileSource(id))
    case Some(url) =>
      match ws.fileUrl(url)
      case None => Failure(NotAFileUrl(url))
      case Some(root) => Success(root)
  }

  /** The module file of a component. */
  function ModulePath(c: LockedComponent, ws: Workspace): Result<Path, PushError>
  {
    match c.source.content.source
    case None => Failure(MissingModuleSource(c.id))
    case Some(url) =>
      match ws.fileUrl(url)
      case None => Failure(NotAFileUrl(url))
      case Some(path) => Success(path)
  }

  /**
   * The innermost loop: walk the entries of one mount root in order; each
   * regular file adds a data layer and a file entry at its path relative to
   * the root; anything else is skipped.
   */
  function WalkFrom(acc: Gathered, items: seq<WalkItem>, root: Path, ws: Workspace): Result<Gathered, PushError>
    decreases |items|
  {
    if |items| == 0 then Success(acc)
    else match items[0]
      case WalkFailure => Failure(WalkFailed(root))
      case Entry(p, kind) =>
        if kind != RegularFile then WalkFrom(acc, items[1..], root, ws)
        else if p !in ws.files then Failure(Unreadable(p))
        else if !IsPrefix(root, p) then Failure(NotUnderRoot(p, root))
        else WalkFrom(AddFile(acc, p, root, ws), items[1..], root, ws)
  }

  /** One regular file: a data layer for its bytes and a file entry at its path relative to the root. */
  function AddFile(acc: Gathered, p: Path, root: Path, ws: Workspace): Gathered
    requires p in ws.files && IsPrefix(root, p)
  {
    var bytes := ws.files[p];
    Gathered(acc.layers + [DataLayer(bytes)], acc.files + [ContentPath(Digested(bytes, ws), p[|root|..])])
  }

  /** The loop over the file mounts of one component. */
  function MountsFrom(acc: Gathered, id: string, mounts: seq<ContentPath>, ws: Workspace): Result<Gathered, PushError>
    decreases |mounts|
  {
    if |mounts| == 0 then Success(acc)
    else match MountRoot(mounts[0], id, ws)
      case Failure(e) => Failure(e)
      case Success(root) =>
        match WalkFrom(acc, ws.walk(root), root, ws)
        case Failure(e) => Failure(e)
        case Success(next) => MountsFrom(next, id, mounts[1..], ws)
  }

  /** The loop over the components. */
  function ComponentsFrom(acc: Bundle, cs: seq<LockedComponent>, ws: Workspace): Result<Bundle, PushError>
    decreases |cs|
  {
    if |cs| == 0 then Success(acc)
    else
      var c := cs[0];
      match ModulePath(c, ws)
      case Failure(e) => Failure(e)
      case Success(path) =>
        if path !in ws.files then Failure(Unreadable(path))
        else
          var moduleBytes := ws.files[path];
          match MountsFrom(Gathered(acc.layers + [WasmLayer(moduleBytes)], []), c.id, c.files, ws)
          case Failure(e) => Failure(e)
          case Success(m) => ComponentsFrom(Bundle(m.layers, acc.components + [Locked(c, moduleBytes, m.files, ws)]), cs[1..], ws)
  }

  /** A component as pushed: its module refers to the module's digest and its mounts to the file entries. */
  function Locked(c: LockedComponent, moduleBytes: seq<byte>, files: seq<ContentPath>, ws: Workspace): LockedComponent
  {
    c.(source := c.source.(content := Digested(moduleBytes, ws)), files := files)
  }

  /** The whole rewrite: the application to push and the layers to upload. */
  function LockApp(app: LockedApp, ws: Workspace): Result<(LockedApp, seq<Layer>), PushError>
  {
    match ComponentsFrom(Bundle([], []), app.components, ws)
    case Failure(e) => Failure(e)
    case Success(b) => Success((app.(components := b.components, metadata := app.metadata - {OriginKey}), b.layers))
  }

  // ---------------------------------------------------------------------
  // The loops of the push, as they run

  /** Walk one mount root, pushing a data layer and a file entry per regular file. */
  method GatherMount(acc: Gathered, root: Path, ws: Workspace) returns (r: Result<Gathered, PushError>)
    ensures r == WalkFrom(acc, ws.walk(root), root, ws)
  {
    var items := ws.walk(root);
    var layers, files := acc.layers, acc.files;
    var k := 0;
    while k < |items|
      invariant 0 <= k <= |items|
      invariant WalkFrom(acc, items, root, ws) == WalkFrom(Gathered(layers, files), items[k..], root, ws)
    {
      assert items[k..][1..] == items[k + 1..];
      match items[k]
      case WalkFailure =>
        return Failure(WalkFailed(root));
      case Entry(p, kind) =>
        if kind == RegularFile {
          if p !in ws.files {
            return Failure(Unreadable(p));
          }
          if !IsPrefix(root, p) {
            return Failure(NotUnderRoot(p, root));
          }
          var bytes := ws.files[p];
          layers := layers + [DataLayer(bytes)];
          files := files + [ContentPath(Digested(bytes, ws), p[|root|..])];
        }
      k := k + 1;
    }
    assert items[k..] == [];
    r := Success(Gathered(layers, files));
  }

  /** The mount loop of one component. */
  method GatherMounts(acc: Gathered, id: string, mounts: seq<ContentPath>, ws: Workspace) returns (r: Result<Gathered, PushError>)
    ensures r == MountsFrom(acc, id, mounts, ws)
  {
    var g := acc;
    var j := 0;
    while j < |mounts|
      invariant 0 <= j <= |mounts|
      invariant MountsFrom(acc, id, mounts, ws) == MountsFrom(g, id, mounts[j..], ws)
    {
      assert mounts[j..][1..] == mounts[j + 1..];
      var f := mounts[j];
      if f.content.source.None? {
        return Failure(MissingFileSource(id));
      }
      var root := ws.fileUrl(f.content.source.value);
      if root.None? {
        return Failure(NotAFileUrl(f.content.source.value));
      }
      var walked := GatherMount(g, root.value, ws);
      if walked.Failure? {
        return Failure(walked.error);
      }
      g := walked.value;
      j := j + 1;
    }
    assert mounts[j..] == [];
    r := Success(g);
  }

  /**
   * The component loop of the push: every module becomes a Wasm layer, every
   * mount its data layers, and the application is rewritten to digests.
   */
  method LockForPush(app: LockedApp, ws: Workspace) returns (r: Result<(LockedApp, seq<Layer>), PushError>)
    ensures r == LockApp(app, ws)
  {
    var cs := app.components;
    var layers: seq<Layer> := [];
    var components: seq<LockedComponent> := [];
    var i := 0;
    while i < |cs|
      invariant 0 <= i <= |cs|
      invariant ComponentsFrom(Bundle([], []), cs, ws) == ComponentsFrom(Bundle(layers, components), cs[i..], ws)
    {
      assert cs[i..][1..] == cs[i + 1..];
      var c := cs[i];
      if c.source.content.source.None? {
        return Failure(MissingModuleSource(c.id));
      }
      var path := ws.fileUrl(c.source.content.source.value);
      if path.None? {
        return Failure(NotAFileUrl(c.source.content.source.value));
      }
      if path.value !in ws.files {
        return Failure(Unreadable(path.value));
      }
      var moduleBytes := ws.files[path.value];
      layers := layers + [WasmLayer(moduleBytes)];
      var mounted := GatherMounts(Gathered(layers, []), c.id, c.files, ws);
      if mounted.Failure? {
        return Failure(mounted.error);
      }
      layers := mounted.value.layers;
      components := components + [Locked(c, moduleBytes, mounted.value.files, ws)];
      i := i + 1;
    }
    assert cs[i..] == [];
    r := Success((app.(components := components, metadata := app.metadata - {OriginKey}), layers));
  }

  // ---------------------------------------------------------------------
  // Reference descriptions of the outcome

  /** The paths of the regular files among walk entries, in walk order. */
  function RegularFiles(items: seq<WalkItem>): seq<Path>
    decreases |items|
  {
    if |items| == 0 then []
    else if items[0].Entry? && items[0].kind == RegularFile then [items[0].path] + RegularFiles(items[1..])
    else RegularFiles(items[1..])
  }

  /** Every path is readable and lies under the root. */
  predicate Readable(ps: seq<Path>, root: Path, ws: Workspace)
    decreases |ps|
  {
    |ps| == 0 || (ps[0] in ws.files && IsPrefix(root, ps[0]) && Readable(ps[1..], root, ws))
  }

  /** The walk reported no error. */
  predicate WalkSucceeded(items: seq<WalkItem>)
    decreases |items|
  {
    |items| == 0 || (items[0].Entry? && WalkSucceeded(items[1..]))
  }

  /** What a list of regular files contributes: one data layer and one file entry each. */
  function FilesOf(ps: seq<Path>, root: Path, ws: Workspace): (g: Gathered)
    requires Readable(ps, root, ws)
    ensures |g.layers| == |ps| && |g.files| == |ps|
    decreases |ps|
  {
    if |ps| == 0 then Gathered([], [])
    else
      var rest := FilesOf(ps[1..], root, ws);
      var bytes := ws.files[ps[0]];
      Gathered([DataLayer(bytes)] + rest.layers, [ContentPath(Digested(bytes, ws), ps[0][|root|..])] + rest.files)
  }

  function Append(acc: Gathered, more: Gathered): Gathered
  {
    Gathered(acc.layers + more.layers, acc.files + more.files)
  }

  /** How layers appear in the manifest: media type and the reference to their digest. */
  function Described(layers: seq<Layer>, ws: Workspace): seq<(string, ContentRef)>
    decreases |layers|
  {
    if |layers| == 0 then []
    else [(layers[0].mediaType, Digested(layers[0].data, ws))] + Described(layers[1..], ws)
  }

  /** The data layers that file entries call for. */
  function FileRefs(files: seq<ContentPath>): seq<(string, ContentRef)>
    decreases |files|
  {
    if |files| == 0 then []
    else [(DataMediaType, files[0].content)] + FileRefs(files[1..])
  }

  /** The layers that rewritten components call for: their module, then their files. */
  function Expected(cs: seq<LockedComponent>): seq<(string, ContentRef)>
    decreases |cs|
  {
    if |cs| == 0 then []
    else [(WasmLayerMediaType, cs[0].source.content)] + FileRefs(cs[0].files) + Expected(cs[1..])
  }

  /** Whether a component or one of its mounts has no local source. */
  predicate LacksSource(c: LockedComponent)
  {
    c.source.content.source.None? || exists f <- c.files :: f.content.source.None?
  }

  /**
   * `after` is `before` with its module replaced by the digest of the
   * module's bytes and its mounts by the files they contribute.
   */
  predicate Rewritten(before: LockedComponent, after: LockedComponent, ws: Workspace)
  {
    && after.id == before.id
    && after.source.contentType == before.source.contentType
    && ModulePath(before, ws).Success?
    && ModulePath(before, ws).value in ws.files
    && after.source.content == Digested(ws.files[ModulePath(before, ws).value], ws)
    && MountedFiles(before.id, before.files, ws).Some?
    && after.files == MountedFiles(before.id, before.files, ws).value.files
  }

  // ---------------------------------------------------------------------
  // Lemmas

  lemma DescribedAppend(a: seq<Layer>, b: seq<Layer>, ws: Workspace)
    ensures Described(a + b, ws) == Described(a, ws) + Described(b, ws)
    decreases |a|
  {
    if |a| > 0 {
      assert (a + b)[1..] == a[1..] + b;
      DescribedAppend(a[1..], b, ws);
    } else {
      assert a + b == b;
    }
  }

  lemma FileRefsAppend(a: seq<ContentPath>, b: seq<ContentPath>)
    ensures FileRefs(a + b) == FileRefs(a) + FileRefs(b)
    decreases |a|
  {
    if |a| > 0 {
      assert (a + b)[1..] == a[1..] + b;
      FileRefsAppend(a[1..], b);
    } else {
      assert a + b == b;
    }
  }

  lemma ExpectedAppend(a: seq<LockedComponent>, b: seq<LockedComponent>)
    ensures Expected(a + b) == Expected(a) + Expected(b)
    decreases |a|
  {
    if |a| > 0 {
      assert (a + b)[1..] == a[1..] + b;
      ExpectedAppend(a[1..], b);
    } else {
      assert a + b == b;
    }
  }

  /** The files of a mount are described by data layers with matching digests. */
  lemma {:induction false} FilesOfDescribed(ps: seq<Path>, root: Path, ws: Workspace)
    requires Readable(ps, root, ws)
    ensures Described(FilesOf(ps, root, ws).layers, ws) == FileRefs(FilesOf(ps, root, ws).files)
    decreases |ps|
  {
    if |ps| > 0 {
      var g := FilesOf(ps, root, ws);
      var rest := FilesOf(ps[1..], root, ws);
      FilesOfDescribed(ps[1..], root, ws);
      assert g.layers[1..] == rest.layers;
      assert g.files[1..] == rest.files;
    }
  }

  /**
   * One mount: the walk succeeds exactly when no entry is an error and every
   * regular file is readable and under the root; it then adds one data layer
   * and one file entry per regular file, in walk order, and nothing for
   * directories or symbolic links.
   */
  lemma {:induction false} WalkFromSpec(acc: Gathered, items: seq<WalkItem>, root: Path, ws: Workspace)
    ensures WalkFrom(acc, items, root, ws).Success? <==>
      WalkSucceeded(items) && Readable(RegularFiles(items), root, ws)
    ensures WalkFrom(acc, items, root, ws).Success? ==>
      Readable(RegularFiles(items), root, ws) &&
      WalkFrom(acc, items, root, ws).value == Append(acc, FilesOf(RegularFiles(items), root, ws))
    decreases |items|
  {
    if |items| == 0 {
      assert acc.layers + [] == acc.layers && acc.files + [] == acc.files;
    } else {
      match items[0]
      case WalkFailure =>
      case Entry(p, kind) =>
        if kind != RegularFile {
          WalkFromSpec(acc, items[1..], root, ws);
          WalkSkipStep(acc, items, root, ws);
        } else if p !in ws.files || !IsPrefix(root, p) {
          RegularFilesFile(items);
        } else {
          WalkFromSpec(AddFile(acc, p, root, ws), items[1..], root, ws);
          WalkFileStep(acc, items, root, ws);
        }
    }
  }

  /** The step of WalkFromSpec for an entry that is not a regular file. */
  lemma WalkSkipStep(acc: Gathered, items: seq<WalkItem>, root: Path, ws: Workspace)
    requires |items| > 0 && items[0].Entry? && items[0].kind != RegularFile
    requires WalkFrom(acc, items[1..], root, ws).Success? <==>
      WalkSucceeded(items[1..]) && Readable(RegularFiles(items[1..]), root, ws)
    requires WalkFrom(acc, items[1..], root, ws).Success? ==>
      Readable(RegularFiles(items[1..]), root, ws) &&
      WalkFrom(acc, items[1..], root, ws).value == Append(acc, FilesOf(RegularFiles(items[1..]), root, ws))
    ensures WalkFrom(acc, items, root, ws).Success? <==>
      WalkSucceeded(items) && Readable(RegularFiles(items), root, ws)
    ensures WalkFrom(acc, items, root, ws).Success? ==>
      Readable(RegularFiles(items), root, ws) &&
      WalkFrom(acc, items, root, ws).value == Append(acc, FilesOf(RegularFiles(items), root, ws))
  {
    assert items == [items[0]] + items[1..];
  }

  /** The step of WalkFromSpec for a readable regular file under the root. */
  lemma WalkFileStep(acc: Gathered, items: seq<WalkItem>, root: Path, ws: Workspace)
    requires |items| > 0 && items[0].Entry? && items[0].kind == RegularFile
    requires items[0].path in ws.files && IsPrefix(root, items[0].path)
    requires var next := AddFile(acc, items[0].path, root, ws);
      && (WalkFrom(next, items[1..], root, ws).Success? <==>
          WalkSucceeded(items[1..]) && Readable(RegularFiles(items[1..]), root, ws))
      && (WalkFrom(next, items[1..], root, ws).Success? ==>
          Readable(RegularFiles(items[1..]), root, ws) &&
          WalkFrom(next, items[1..], root, ws).value == Append(next, FilesOf(RegularFiles(items[1..]), root, ws)))
    ensures WalkFrom(acc, items, root, ws).Success? <==>
      WalkSucceeded(items) && Readable(RegularFiles(items), root, ws)
    ensures WalkFrom(acc, items, root, ws).Success? ==>
      Readable(RegularFiles(items), root, ws) &&
      WalkFrom(acc, items, root, ws).value == Append(acc, FilesOf(RegularFiles(items), root, ws))
  {
    WalkFileIff(acc, items, root, ws);
    if WalkFrom(acc, items, root, ws).Success? {
      RegularFilesFile(items);
      WalkFileValue(acc, RegularFiles(items), root, ws, WalkFrom(acc, items, root, ws).value);
    }
  }

  lemma WalkFileIff(acc: Gathered, items: seq<WalkItem>, root: Path, ws: Workspace)
    requires |items| > 0 && items[0].Entry? && items[0].kind == RegularFile
    requires items[0].path in ws.files && IsPrefix(root, items[0].path)
    requires WalkFrom(AddFile(acc, items[0].path, root, ws), items[1..], root, ws).Success? <==>
      WalkSucceeded(items[1..]) && Readable(RegularFiles(items[1..]), root, ws)
    ensures WalkFrom(acc, items, root, ws) == WalkFrom(AddFile(acc, items[0].path, root, ws), items[1..], root, ws)
    ensures WalkFrom(acc, items, root, ws).Success? <==>
      WalkSucceeded(items) && Readable(RegularFiles(items), root, ws)
  {
    var rest := items[1..];
    RegularFilesFile(items);
    var ps := RegularFiles(items);
    assert ps[0] == items[0].path && ps[1..] == RegularFiles(rest);
    assert WalkSucceeded(items) == WalkSucceeded(rest);
    assert Readable(ps, root, ws) == Readable(RegularFiles(rest), root, ws);
  }

  /** Adding the first file and then the rest is adding all the files. */
  lemma WalkFileValue(acc: Gathered, ps: seq<Path>, root: Path, ws: Workspace, r: Gathered)
    requires |ps| > 0 && Readable(ps, root, ws)
    requires Readable(ps[1..], root, ws)
    requires r == Append(AddFile(acc, ps[0], root, ws), FilesOf(ps[1..], root, ws))
    ensures r == Append(acc, FilesOf(ps, root, ws))
  {
    var bytes := ws.files[ps[0]];
    var fr := FilesOf(ps[1..], root, ws);
    FilesOfCons(ps, root, ws);
    AppendCons(acc, DataLayer(bytes), ContentPath(Digested(bytes, ws), ps[0][|root|..]), fr);
  }

  lemma RegularFilesFile(items: seq<WalkItem>)
    requires |items| > 0 && items[0].Entry? && items[0].kind == RegularFile
    ensures RegularFiles(items) == [items[0].path] + RegularFiles(items[1..])
  {
  }

  lemma FilesOfCons(ps: seq<Path>, root: Path, ws: Workspace)
    requires |ps| > 0 && Readable(ps, root, ws)
    ensures Readable(ps[1..], root, ws)
    ensures var f := FilesOf(ps, root, ws); var fr := FilesOf(ps[1..], root, ws); var bytes := ws.files[ps[0]];
      f == Gathered([DataLayer(bytes)] + fr.layers, [ContentPath(Digested(bytes, ws), ps[0][|root|..])] + fr.files)
  {
  }

  lemma AppendCons(acc: Gathered, l: Layer, f: ContentPath, more: Gathered)
    ensures Append(Gathered(acc.layers + [l], acc.files + [f]), more) ==
            Append(acc, Gathered([l] + more.layers, [f] + more.files))
  {
    assert (acc.layers + [l]) + more.layers == acc.layers + ([l] + more.layers);
    assert (acc.files + [f]) + more.files == acc.files + ([f] + more.files);
  }

  /** A mount that holds no regular file adds nothing. */
  lemma EmptyMountAddsNothing(acc: Gathered, items: seq<WalkItem>, root: Path, ws: Workspace)
    requires forall k :: 0 <= k < |items| ==> items[k].Entry? && items[k].kind != RegularFile
    ensures WalkFrom(acc, items, root, ws) == Success(acc)
  {
    NoRegularFiles(items);
    WalkFromSpec(acc, items, root, ws);
    assert acc.layers + [] == acc.layers && acc.files + [] == acc.files;
  }

  lemma {:induction false} NoRegularFiles(items: seq<WalkItem>)
    requires forall k :: 0 <= k < |items| ==> items[k].Entry? && items[k].kind != RegularFile
    ensures WalkSucceeded(items) && RegularFiles(items) == []
    decreases |items|
  {
    if |items| > 0 {
      NoRegularFiles(items[1..]);
    }
  }

  /** The k-th file contributes the data layer of its bytes and an entry at its path relative to the root. */
  lemma {:induction false} FilesOfAt(ps: seq<Path>, root: Path, ws: Workspace, k: nat)
    requires Readable(ps, root, ws) && k < |ps|
    ensures ps[k] in ws.files && IsPrefix(root, ps[k])
    ensures FilesOf(ps, root, ws).layers[k] == DataLayer(ws.files[ps[k]])
    ensures FilesOf(ps, root, ws).files[k] == ContentPath(Digested(ws.files[ps[k]], ws), ps[k][|root|..])
    decreases k
  {
    if k > 0 {
      FilesOfAt(ps[1..], root, ws, k - 1);
    }
  }

  // ---------------------------------------------------------------------
  // Mounts

  /**
   * `g` is `acc` followed by data layers and file entries that match one for
   * one: each new file entry refers to the digest of the data layer at the
   * same position.
   */
  predicate Extends(acc: Gathered, g: Gathered, ws: Workspace)
  {
    && |acc.layers| <= |g.layers| && g.layers[..|acc.layers|] == acc.layers
    && |acc.files| <= |g.files| && g.files[..|acc.files|] == acc.files
    && Described(g.layers[|acc.layers|..], ws) == FileRefs(g.files[|acc.files|..])
  }

  lemma ExtendsRefl(acc: Gathered, ws: Workspace)
    ensures Extends(acc, acc, ws)
  {
    assert acc.layers[|acc.layers|..] == [] && acc.files[|acc.files|..] == [];
  }

  lemma ExtendsTrans(a: Gathered, b: Gathered, c: Gathered, ws: Workspace)
    requires Extends(a, b, ws) && Extends(b, c, ws)
    ensures Extends(a, c, ws)
  {
    assert c.layers[..|a.layers|] == c.layers[..|b.layers|][..|a.layers|];
    assert c.files[..|a.files|] == c.files[..|b.files|][..|a.files|];
    assert c.layers[|a.layers|..] == b.layers[|a.layers|..] + c.layers[|b.layers|..];
    assert c.files[|a.files|..] == b.files[|a.files|..] + c.files[|b.files|..];
    DescribedAppend(b.layers[|a.layers|..], c.layers[|b.layers|..], ws);
    FileRefsAppend(b.files[|a.files|..], c.files[|b.files|..]);
  }

  /** A successful walk extends what was gathered. */
  lemma WalkExtends(acc: Gathered, items: seq<WalkItem>, root: Path, ws: Workspace)
    requires WalkFrom(acc, items, root, ws).Success?
    ensures Extends(acc, WalkFrom(acc, items, root, ws).value, ws)
  {
    WalkFromSpec(acc, items, root, ws);
    var g := WalkFrom(acc, items, root, ws).value;
    var f := FilesOf(RegularFiles(items), root, ws);
    FilesOfDescribed(RegularFiles(items), root, ws);
    assert g.layers[..|acc.layers|] == acc.layers && g.layers[|acc.layers|..] == f.layers;
    assert g.files[..|acc.files|] == acc.files && g.files[|acc.files|..] == f.files;
  }

  /** The mounts of one component, on success, extend what was gathered. */
  lemma {:induction false} MountsFromExtends(acc: Gathered, id: string, mounts: seq<ContentPath>, ws: Workspace)
    ensures MountsFrom(acc, id, mounts, ws).Success? ==> Extends(acc, MountsFrom(acc, id, mounts, ws).value, ws)
    decreases |mounts|
  {
    if |mounts| == 0 {
      ExtendsRefl(acc, ws);
    } else {
      match MountRoot(mounts[0], id, ws)
      case Failure(_) =>
      case Success(root) =>
        if WalkFrom(acc, ws.walk(root), root, ws).Success? {
          var next := WalkFrom(acc, ws.walk(root), root, ws).value;
          WalkExtends(acc, ws.walk(root), root, ws);
          MountsFromExtends(next, id, mounts[1..], ws);
          if MountsFrom(acc, id, mounts, ws).Success? {
            ExtendsTrans(acc, next, MountsFrom(acc, id, mounts, ws).value, ws);
          }
        }
    }
  }

  /** A mount without a local source makes the mount loop fail. */
  lemma {:induction false} MountsFromMissingSource(acc: Gathered, id: string, mounts: seq<ContentPath>, ws: Workspace, k: nat)
    requires k < |mounts| && mounts[k].content.source.None?
    ensures MountsFrom(acc, id, mounts, ws).Failure?
    decreases k
  {
    if k > 0 {
      match MountRoot(mounts[0], id, ws)
      case Failure(_) =>
      case Success(root) =>
        if WalkFrom(acc, ws.walk(root), root, ws).Success? {
          MountsFromMissingSource(WalkFrom(acc, ws.walk(root), root, ws).value, id, mounts[1..], ws, k - 1);
        }
    }
  }

  /**
   * What the mounts of one component contribute, mount by mount: the files
   * of each mount root's walk, at their paths relative to that root; None
   * when a mount does not resolve to a root or its walk fails.
   */
  function MountedFiles(id: string, mounts: seq<ContentPath>, ws: Workspace): Option<Gathered>
    decreases |mounts|
  {
    if |mounts| == 0 then Some(Gathered([], []))
    else match MountRoot(mounts[0], id, ws)
      case Failure(_) => None
      case Success(root) =>
        var ps := RegularFiles(ws.walk(root));
        if !WalkSucceeded(ws.walk(root)) || !Readable(ps, root, ws) then None
        else match MountedFiles(id, mounts[1..], ws)
          case None => None
          case Some(rest) => Some(Append(FilesOf(ps, root, ws), rest))
  }

  lemma AppendAssoc(a: Gathered, b: Gathered, c: Gathered)
    ensures Append(Append(a, b), c) == Append(a, Append(b, c))
  {
    assert (a.layers + b.layers) + c.layers == a.layers + (b.layers + c.layers);
    assert (a.files + b.files) + c.files == a.files + (b.files + c.files);
  }

  /**
   * The mount loop succeeds exactly when every mount resolves and walks
   * cleanly, and then appends what the mounts contribute, in mount order.
   */
  lemma {:induction false} MountsFromSpec(acc: Gathered, id: string, mounts: seq<ContentPath>, ws: Workspace)
    ensures MountsFrom(acc, id, mounts, ws).Success? <==> MountedFiles(id, mounts, ws).Some?
    ensures MountsFrom(acc, id, mounts, ws).Success? ==>
      MountsFrom(acc, id, mounts, ws).value == Append(acc, MountedFiles(id, mounts, ws).value)
    decreases |mounts|
  {
    if |mounts| == 0 {
      assert acc.layers + [] == acc.layers && acc.files + [] == acc.files;
    } else {
      match MountRoot(mounts[0], id, ws)
      case Failure(_) =>
      case Success(root) =>
        var items := ws.walk(root);
        WalkFromSpec(acc, items, root, ws);
        if WalkFrom(acc, items, root, ws).Success? {
          var f := FilesOf(RegularFiles(items), root, ws);
          var next := WalkFrom(acc, items, root, ws).value;
          MountsFromSpec(next, id, mounts[1..], ws);
          if MountedFiles(id, mounts[1..], ws).Some? {
            AppendAssoc(acc, f, MountedFiles(id, mounts[1..], ws).value);
          }
        }
    }
  }

  /** Each file a component's mounts contribute sits at its path relative to its mount root. */
  lemma {:induction false} MountedFilesAt(id: string, mounts: seq<ContentPath>, ws: Workspace, k: nat, i: nat)
    requires MountedFiles(id, mounts, ws).Some? && k < |mounts|
    ensures MountRoot(mounts[k], id, ws).Success?
    ensures var root := MountRoot(mounts[k], id, ws).value; var ps := RegularFiles(ws.walk(root));
      Readable(ps, root, ws) && (i < |ps| ==>
        ps[i] in ws.files && IsPrefix(root, ps[i]) &&
        ContentPath(Digested(ws.files[ps[i]], ws), ps[i][|root|..]) in MountedFiles(id, mounts, ws).value.files)
    decreases k
  {
    var root := MountRoot(mounts[0], id, ws).value;
    var ps := RegularFiles(ws.walk(root));
    var f := FilesOf(ps, root, ws);
    var rest := MountedFiles(id, mounts[1..], ws).value;
    if k == 0 {
      if i < |ps| {
        FilesOfAt(ps, root, ws, i);
        assert Append(f, rest).files[i] == f.files[i];
      }
    } else {
      MountedFilesAt(id, mounts[1..], ws, k - 1, i);
      var r := MountRoot(mounts[k], id, ws).value;
      var qs := RegularFiles(ws.walk(r));
      if i < |qs| {
        var e := ContentPath(Digested(ws.files[qs[i]], ws), qs[i][|r|..]);
        var j :| 0 <= j < |rest.files| && rest.files[j] == e;
        assert Append(f, rest).files[|f.files| + j] == e;
      }
    }
  }

  // ---------------------------------------------------------------------
  // Components

  /**
   * `b` is `acc` followed by more rewritten components, and the new layers
   * are, component by component, the module's Wasm layer then one data layer
   * per file entry.
   */
  predicate Grows(acc: Bundle, b: Bundle, ws: Workspace)
  {
    && |acc.layers| <= |b.layers| && b.layers[..|acc.layers|] == acc.layers
    && |acc.components| <= |b.components| && b.components[..|acc.components|] == acc.components
    && Described(b.layers[|acc.layers|..], ws) == Expected(b.components[|acc.components|..])
  }

  lemma GrowsTrans(a: Bundle, b: Bundle, c: Bundle, ws: Workspace)
    requires Grows(a, b, ws) && Grows(b, c, ws)
    ensures Grows(a, c, ws)
  {
    assert c.layers[..|a.layers|] == c.layers[..|b.layers|][..|a.layers|];
    assert c.components[..|a.components|] == c.components[..|b.components|][..|a.components|];
    assert c.layers[|a.layers|..] == b.layers[|a.layers|..] + c.layers[|b.layers|..];
    assert c.components[|a.components|..] == b.components[|a.components|..] + c.components[|b.components|..];
    DescribedAppend(b.layers[|a.layers|..], c.layers[|b.layers|..], ws);
    ExpectedAppend(b.components[|a.components|..], c.components[|b.components|..]);
  }

  /** One component: its Wasm layer, then the layers its mounts gathered. */
  lemma ComponentGrows(acc: Bundle, c: LockedComponent, moduleBytes: seq<byte>, m: Gathered, ws: Workspace)
    requires Extends(Gathered(acc.layers + [WasmLayer(moduleBytes)], []), m, ws)
    ensures Grows(acc, Bundle(m.layers, acc.components + [Locked(c, moduleBytes, m.files, ws)]), ws)
  {
    var n := |acc.layers|;
    var w := WasmLayer(moduleBytes);
    var locked := Locked(c, moduleBytes, m.files, ws);
    var b := Bundle(m.layers, acc.components + [locked]);
    assert m.layers[..n] == (acc.layers + [w])[..n];
    assert m.layers[n] == w;
    assert m.layers[n..][1..] == m.layers[n + 1..];
    assert m.files[0..] == m.files;
    assert Described(b.layers[n..], ws) == [(w.mediaType, Digested(w.data, ws))] + FileRefs(m.files);
    assert b.components[|acc.components|..] == [locked];
    assert [locked][1..] == [];
  }

  /** The component loop, on success, grows what was gathered. */
  lemma {:induction false} ComponentsFromGrows(acc: Bundle, cs: seq<LockedComponent>, ws: Workspace)
    ensures ComponentsFrom(acc, cs, ws).Success? ==> Grows(acc, ComponentsFrom(acc, cs, ws).value, ws)
    decreases |cs|
  {
    if |cs| == 0 {
      assert acc.layers[|acc.layers|..] == [] && acc.components[|acc.components|..] == [];
    } else {
      var c := cs[0];
      match ModulePath(c, ws)
      case Failure(_) =>
      case Success(path) =>
        if path in ws.files {
          var moduleBytes := ws.files[path];
          var start := Gathered(acc.layers + [WasmLayer(moduleBytes)], []);
          MountsFromExtends(start, c.id, c.files, ws);
          if MountsFrom(start, c.id, c.files, ws).Success? {
            var m := MountsFrom(start, c.id, c.files, ws).value;
            var next := Bundle(m.layers, acc.components + [Locked(c, moduleBytes, m.files, ws)]);
            ComponentGrows(acc, c, moduleBytes, m, ws);
            ComponentsFromGrows(next, cs[1..], ws);
            if ComponentsFrom(acc, cs, ws).Success? {
              GrowsTrans(acc, next, ComponentsFrom(acc, cs, ws).value, ws);
            }
          }
        }
    }
  }

  /**
   * The component loop, on success, keeps every component in order and
   * replaces its module reference by the digest of the module's bytes.
   */
  lemma {:induction false} ComponentsFromRewrites(acc: Bundle, cs: seq<LockedComponent>, ws: Workspace)
    ensures ComponentsFrom(acc, cs, ws).Success? ==>
      var b := ComponentsFrom(acc, cs, ws).value;
      && |b.components| == |acc.components| + |cs|
      && b.components[..|acc.components|] == acc.components
      && forall i :: 0 <= i < |cs| ==> Rewritten(cs[i], b.components[|acc.components| + i], ws)
    decreases |cs|
  {
    if |cs| > 0 && ComponentsFrom(acc, cs, ws).Success? {
      var c := cs[0];
      var path := ModulePath(c, ws).value;
      var moduleBytes := ws.files[path];
      var start := Gathered(acc.layers + [WasmLayer(moduleBytes)], []);
      var m := MountsFrom(start, c.id, c.files, ws).value;
      var locked := Locked(c, moduleBytes, m.files, ws);
      var next := Bundle(m.layers, acc.components + [locked]);
      MountsFromSpec(start, c.id, c.files, ws);
      assert m.files == [] + MountedFiles(c.id, c.files, ws).value.files;
      ComponentsFromRewrites(next, cs[1..], ws);
      var b := ComponentsFrom(acc, cs, ws).value;
      var n := |acc.components|;
      assert b == ComponentsFrom(next, cs[1..], ws).value;
      assert b.components[..n] == b.components[..n + 1][..n];
      assert b.components[n] == locked;
      forall i | 0 <= i < |cs|
        ensures Rewritten(cs[i], b.components[n + i], ws)
      {
        if i > 0 {
          assert cs[i] == cs[1..][i - 1];
        }
      }
    }
  }

  /** A component whose module or one of whose mounts has no local source makes the loop fail. */
  lemma {:induction false} ComponentsFromMissingSource(acc: Bundle, cs: seq<LockedComponent>, ws: Workspace, k: nat)
    requires k < |cs| && LacksSource(cs[k])
    ensures ComponentsFrom(acc, cs, ws).Failure?
    decreases k
  {
    var c := cs[0];
    match ModulePath(c, ws)
    case Failure(_) =>
    case Success(path) =>
      if path in ws.files {
        var moduleBytes := ws.files[path];
        var start := Gathered(acc.layers + [WasmLayer(moduleBytes)], []);
        if k == 0 {
          var j :| 0 <= j < |c.files| && c.files[j].content.source.None?;
          MountsFromMissingSource(start, c.id, c.files, ws, j);
        } else if MountsFrom(start, c.id, c.files, ws).Success? {
          var m := MountsFrom(start, c.id, c.files, ws).value;
          var next := Bundle(m.layers, acc.components + [Locked(c, moduleBytes, m.files, ws)]);
          ComponentsFromMissingSource(next, cs[1..], ws, k - 1);
        }
      }
  }

  // ---------------------------------------------------------------------
  // The whole rewrite

  /**
   * The push rewrite: a component or mount without a local source makes it
   * fail; otherwise the components keep their order and identity, every
   * module reference becomes `{source: None, digest: sha256(module bytes)}`,
   * every component's file entries are those its own mounts contribute
   * (`MountedFiles`, at paths relative to each mount root), the layers are
   * exactly one Wasm layer per component followed by one data layer per
   * file entry, every file entry refers to its layer's digest, and the
   * metadata loses its "origin" key and nothing else.
   */
  lemma LockAppSpec(app: LockedApp, ws: Workspace)
    ensures (exists c <- app.components :: LacksSource(c)) ==> LockApp(app, ws).Failure?
    ensures LockApp(app, ws).Success? ==>
      var (locked, layers) := LockApp(app, ws).value;
      && OriginKey !in locked.metadata
      && (forall k :: k != OriginKey ==> (k in locked.metadata <==> k in app.metadata))
      && (forall k :: k in locked.metadata ==> locked.metadata[k] == app.metadata[k])
      && |locked.components| == |app.components|
      && (forall i :: 0 <= i < |app.components| ==> Rewritten(app.components[i], locked.components[i], ws))
      && Described(layers, ws) == Expected(locked.components)
  {
    if exists c <- app.components :: LacksSource(c) {
      var c :| c in app.components && LacksSource(c);
      var k :| 0 <= k < |app.components| && app.components[k] == c;
      ComponentsFromMissingSource(Bundle([], []), app.components, ws, k);
    }
    ComponentsFromGrows(Bundle([], []), app.components, ws);
    ComponentsFromRewrites(Bundle([], []), app.components, ws);
    if LockApp(app, ws).Success? {
      var b := ComponentsFrom(Bundle([], []), app.components, ws).value;
      assert b.layers[0..] == b.layers && b.components[0..] == b.components;
    }
  }

  /**
   * A component the push can lock: its module resolves to a readable file and
   * every one of its mounts resolves to a root whose walk succeeds.
   */
  predicate Pushable(c: LockedComponent, ws: Workspace)
  {
    && ModulePath(c, ws).Success?
    && ModulePath(c, ws).value in ws.files
    && MountedFiles(c.id, c.files, ws).Some?
  }

  /** The component loop succeeds exactly when every component left is pushable. */
  lemma {:induction false} ComponentsFromSucceeds(acc: Bundle, cs: seq<LockedComponent>, ws: Workspace)
    ensures ComponentsFrom(acc, cs, ws).Success? <==> forall c <- cs :: Pushable(c, ws)
    decreases |cs|
  {
    if |cs| > 0 {
      var c := cs[0];
      assert (forall x <- cs :: Pushable(x, ws)) <==> Pushable(c, ws) && forall x <- cs[1..] :: Pushable(x, ws) by {
        assert cs == [c] + cs[1..];
      }
      if ModulePath(c, ws).Success? && ModulePath(c, ws).value in ws.files {
        var moduleBytes := ws.files[ModulePath(c, ws).value];
        var start := Gathered(acc.layers + [WasmLayer(moduleBytes)], []);
        MountsFromSpec(start, c.id, c.files, ws);
        if MountsFrom(start, c.id, c.files, ws).Success? {
          var m := MountsFrom(start, c.id, c.files, ws).value;
          ComponentsFromSucceeds(Bundle(m.layers, acc.components + [Locked(c, moduleBytes, m.files, ws)]), cs[1..], ws);
        }
      }
    }
  }

  /** The push rewrite succeeds exactly when every component of the application is pushable. */
  lemma LockAppSucceeds(app: LockedApp, ws: Workspace)
    ensures LockApp(app, ws).Success? <==> forall c <- app.components :: Pushable(c, ws)
  {
    ComponentsFromSucceeds(Bundle([], []), app.components, ws);
  }

  /** After the rewrite no module or file entry keeps a local source; each has a digest. */
  lemma ExpectedHasNoSources(cs: seq<LockedComponent>, layers: seq<Layer>, ws: Workspace)
    requires Described(layers, ws) == Expected(cs)
    ensures forall c <- cs :: c.source.content.source.None? && c.source.content.digest.Some?
    ensures forall c <- cs, f <- c.files :: f.content.source.None? && f.content.digest.Some?
  {
    DescribedDigests(layers, ws);
    ExpectedContains(cs);
  }

  lemma {:induction false} DescribedDigests(layers: seq<Layer>, ws: Workspace)
    ensures forall x <- Described(layers, ws) :: x.1.source.None? && x.1.digest.Some?
    decreases |layers|
  {
    if |layers| > 0 {
      DescribedDigests(layers[1..], ws);
    }
  }

  lemma {:induction false} FileRefsContains(files: seq<ContentPath>)
    ensures forall f <- files :: (DataMediaType, f.content) in FileRefs(files)
    decreases |files|
  {
    if |files| > 0 {
      FileRefsContains(files[1..]);
      assert forall f <- files :: f == files[0] || f in files[1..];
    }
  }

  lemma {:induction false} ExpectedContains(cs: seq<LockedComponent>)
    ensures forall c <- cs :: (WasmLayerMediaType, c.source.content) in Expected(cs)
    ensures forall c <- cs, f <- c.files :: (DataMediaType, f.content) in Expected(cs)
    decreases |cs|
  {
    if |cs| > 0 {
      ExpectedContains(cs[1..]);
      FileRefsContains(cs[0].files);
      assert forall c <- cs :: c == cs[0] || c in cs[1..];
    }
  }

  /** There are as many layers as components plus file entries. */
  lemma LayerCount(cs: seq<LockedComponent>, layers: seq<Layer>, ws: Workspace)
    requires Described(layers, ws) == Expected(cs)
    ensures |layers| == |cs| + SumFiles(cs)
  {
    DescribedLength(layers, ws);
    ExpectedLength(cs);
  }

  lemma {:induction false} DescribedLength(layers: seq<Layer>, ws: Workspace)
    ensures |Described(layers, ws)| == |layers|
    decreases |layers|
  {
    if |layers| > 0 {
      DescribedLength(layers[1..], ws);
    }
  }

  lemma {:induction false} FileRefsLength(files: seq<ContentPath>)
    ensures |FileRefs(files)| == |files|
    decreases |files|
  {
    if |files| > 0 {
      FileRefsLength(files[1..]);
    }
  }

  lemma {:induction false} ExpectedLength(cs: seq<LockedComponent>)
    ensures |Expected(cs)| == |cs| + SumFiles(cs)
    decreases |cs|
  {
    if |cs| > 0 {
      FileRefsLength(cs[0].files);
      ExpectedLength(cs[1..]);
    }
  }

  /** The number of file entries over all components. */
  function SumFiles(cs: seq<LockedComponent>): nat
    decreases |cs|
  {
    if |cs| == 0 then 0 else |cs[0].files| + SumFiles(cs[1..])
  }

  /** The number of layers with a media type. */
  function CountLayers(layers: seq<Layer>, mediaType: string): nat
    decreases |layers|
  {
    if |layers| == 0 then 0
    else (if layers[0].mediaType == mediaType then 1 else 0) + CountLayers(layers[1..], mediaType)
  }

  /** The number of described layers with a media type. */
  function CountRefs(refs: seq<(string, ContentRef)>, mediaType: string): nat
    decreases |refs|
  {
    if |refs| == 0 then 0
    else (if refs[0].0 == mediaType then 1 else 0) + CountRefs(refs[1..], mediaType)
  }

  lemma {:induction false} CountDescribed(layers: seq<Layer>, mediaType: string, ws: Workspace)
    ensures CountLayers(layers, mediaType) == CountRefs(Described(layers, ws), mediaType)
    decreases |layers|
  {
    if |layers| > 0 {
      CountDescribed(layers[1..], mediaType, ws);
    }
  }

  lemma {:induction false} CountRefsAppend(a: seq<(string, ContentRef)>, b: seq<(string, ContentRef)>, mediaType: string)
    ensures CountRefs(a + b, mediaType) == CountRefs(a, mediaType) + CountRefs(b, mediaType)
    decreases |a|
  {
    if |a| > 0 {
      assert (a + b)[1..] == a[1..] + b;
      CountRefsAppend(a[1..], b, mediaType);
    } else {
      assert a + b == b;
    }
  }

  lemma {:induction false} CountFileRefs(files: seq<ContentPath>)
    ensures CountRefs(FileRefs(files), DataMediaType) == |files|
    ensures CountRefs(FileRefs(files), WasmLayerMediaType) == 0
    decreases |files|
  {
    MediaTypesDistinct();
    if |files| > 0 {
      CountFileRefs(files[1..]);
    }
  }

  lemma {:induction false} CountExpected(cs: seq<LockedComponent>)
    ensures CountRefs(Expected(cs), WasmLayerMediaType) == |cs|
    ensures CountRefs(Expected(cs), DataMediaType) == SumFiles(cs)
    decreases |cs|
  {
    MediaTypesDistinct();
    if |cs| > 0 {
      var head := [(WasmLayerMediaType, cs[0].source.content)];
      CountExpected(cs[1..]);
      CountFileRefs(cs[0].files);
      CountRefsAppend(head, FileRefs(cs[0].files), WasmLayerMediaType);
      CountRefsAppend(head, FileRefs(cs[0].files), DataMediaType);
      CountRefsAppend(head + FileRefs(cs[0].files), Expected(cs[1..]), WasmLayerMediaType);
      CountRefsAppend(head + FileRefs(cs[0].files), Expected(cs[1..]), DataMediaType);
    }
  }

  /**
   * A successful rewrite pushes exactly one Wasm layer per component and one
   * data layer per file entry, and no layer of any other media type.
   */
  lemma LayerMediaTypes(app: LockedApp, ws: Workspace)
    requires LockApp(app, ws).Success?
    ensures var (locked, layers) := LockApp(app, ws).value;
      && CountLayers(layers, WasmLayerMediaType) == |app.components|
      && CountLayers(layers, DataMediaType) == SumFiles(locked.components)
      && |layers| == |app.components| + SumFiles(locked.components)
  {
    LockAppSpec(app, ws);
    var (locked, layers) := LockApp(app, ws).value;
    CountDescribed(layers, WasmLayerMediaType, ws);
    CountDescribed(layers, DataMediaType, ws);
    CountExpected(locked.components);
    LayerCount(locked.components, layers, ws);
  }
}
