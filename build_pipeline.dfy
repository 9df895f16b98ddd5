/**
 * The bundle build pipeline of the editor: compose the output directory, compile
 * the bundles, delete the compiler's side files, copy the raw bundles, assemble the
 * manifest and optionally promote a subset of it to the read-only directory.
 * The engine, the file system and the hash function are the capabilities of an
 * `Editor` value; the pipeline's own logic is what is proved.
 */
module BuildPipeline {
  import opened Wrappers
  import opened Paths
  import opened Sequences

  newtype byte = x: int | 0 <= x < 256

  /** BuildTarget.ToString(): the target platform's enum name. */
  type BuildTarget = string

  /** BuildAssetBundleOptions: the compiler's option flags, passed through untouched. */
  type BuildAssetBundleOptions = int

  /** One declared asset of a bundle. */
  datatype AssetBuildInfo = AssetBuildInfo(assetName: string)

  /** One declared bundle: where it goes, its group and its assets, first asset first. */
  datatype BundleBuildInfo = BundleBuildInfo(
    relativePath: string, directoryName: string, bundleName: string, group: string,
    assets: seq<AssetBuildInfo>)

  /** What the engine's compiler is given per bundle. */
  datatype AssetBundleBuild = AssetBundleBuild(assetBundleName: string, assetNames: seq<string>)

  /** The compiler's result: the content hash it reports for each bundle path. */
  datatype UnityManifest = UnityManifest(bundleHash: string -> string)

  /** An asset of the manifest; raw bundles leave `dependencies` unset (null). */
  datatype AssetManifestInfo = AssetManifestInfo(assetName: string, dependencies: Option<seq<string>>)

  /** A bundle of the manifest. */
  datatype BundleManifestInfo = BundleManifestInfo(
    relativePath: string, directory: string, bundleName: string, group: string,
    isRaw: bool, isScene: bool, length: int, hash: string, assets: seq<AssetManifestInfo>)

  /** A file the compiler left under the output directory (any depth). */
  datatype FileEntry = FileEntry(fullName: string, name: string)

  /** One File.Copy of a raw asset into the output directory. */
  datatype FileCopy = FileCopy(source: string, destination: string)

  /** A manifest as written to disk by WriteManifestFile: the directory and the manifest's contents. */
  datatype ManifestFile = ManifestFile(
    directory: string, gameVersion: string, manifestVersion: int, bundles: seq<BundleManifestInfo>)

  /** The exceptions the pipeline's own code can raise. */
  datatype BuildError =
    | AssetsEmpty(relativePath: string)   // Assets[0] of a bundle declared with no assets
    | NullUnityManifest                   // GetAssetBundleHash on the null the compiler step returned

  /**
   * What the pipeline asks of the editor: the application version and read-only
   * path, the bundle compiler, the file listing, file lengths and contents, the
   * byte hash and the direct-dependency lookup.
   */
  datatype Editor = Editor(
    version: string,
    streamingAssetsPath: string,
    compile: (string, seq<AssetBundleBuild>, BuildAssetBundleOptions, BuildTarget) -> Option<UnityManifest>,
    listFiles: string -> seq<FileEntry>,
    fileLength: string -> int,
    readAllBytes: string -> seq<byte>,
    hashBytes: seq<byte> -> string,
    dependencies: string -> seq<string>)

  /** The build configuration: its settings and the three build lists it enumerates. */
  datatype BundleBuildConfig = BundleBuildConfig(
    outputPath: string, manifestVersion: int, options: BuildAssetBundleOptions,
    isCopyToReadOnlyPath: bool, targetPlatforms: seq<BuildTarget>, copyGroup: Option<string>,
    assetBundleBuilds: Option<seq<AssetBundleBuild>>,
    normalBundleBuilds: seq<BundleBuildInfo>, rawBundleBuilds: seq<BundleBuildInfo>)

  /** The manifest under construction; CopyToReadOnlyPath replaces its bundle list in place. */
  class CatAssetManifest {
    var gameVersion: string
    var manifestVersion: int
    var bundles: seq<BundleManifestInfo>

    constructor (gameVersion: string, manifestVersion: int)
      ensures this.gameVersion == gameVersion && this.manifestVersion == manifestVersion
      ensures bundles == []
    {
      this.gameVersion := gameVersion;
      this.manifestVersion := manifestVersion;
      bundles := [];
    }
  }

  // ---------------------------------------------------------------------------
  // Output directory

  /** The directory name of one build: the application version, '_', the manifest version. */
  function VersionDirectory(version: string, manifestVersion: int): string {
    version + "_" + IntToDecimal(manifestVersion)
  }

  /** Path.Combine(outputPath, platform, version + "_" + manifestVersion). */
  function GetFullOutputPath(outputPath: string, targetPlatform: BuildTarget, version: string, manifestVersion: int): (full: string)
    ensures EndsWith(full, VersionDirectory(version, manifestVersion))
  {
    CombineKeepsParts(Combine(outputPath, targetPlatform), VersionDirectory(version, manifestVersion));
    Combine3(outputPath, targetPlatform, VersionDirectory(version, manifestVersion))
  }

  /**
   * The layout <outputPath>\<platform>\<version>_<manifestVersion>: with a plain
   * platform name and version the result is the platform directory, one backslash
   * and the version directory, whose name the last backslash separates and from
   * which the manifest version reads back.
   */
  lemma FullOutputPathLayout(outputPath: string, targetPlatform: BuildTarget, version: string, manifestVersion: int)
    requires targetPlatform != "" && IsPlainSegment(targetPlatform) && IsPlainSegment(version)
    ensures var dir := VersionDirectory(version, manifestVersion);
      && GetFullOutputPath(outputPath, targetPlatform, version, manifestVersion)
           == Combine(outputPath, targetPlatform) + [DIRECTORY_SEPARATOR] + dir
      && AfterLastBackslash(GetFullOutputPath(outputPath, targetPlatform, version, manifestVersion)) == dir
      && ParseDecimal(dir[|version| + 1..]) == manifestVersion
  {
    var dir := VersionDirectory(version, manifestVersion);
    var platformDir := Combine(outputPath, targetPlatform);
    PlainEndNotSeparator(outputPath, targetPlatform);
    VersionDirectoryPlain(version, manifestVersion);
    assert !IsRooted(dir);
    assert GetFullOutputPath(outputPath, targetPlatform, version, manifestVersion) == platformDir + [DIRECTORY_SEPARATOR] + dir;
    AfterBackslashOfJoin(platformDir, dir);
    IntToDecimalRoundTrip(manifestVersion);
  }

  /** Combining onto a plain, nonempty segment ends in a character after which Path.Combine inserts a backslash. */
  lemma PlainEndNotSeparator(outputPath: string, segment: string)
    requires segment != "" && IsPlainSegment(segment)
    ensures var r := Combine(outputPath, segment);
      r != "" && !IsSeparator(r[|r| - 1]) && r[|r| - 1] != VOLUME_SEPARATOR
  {
    var r := Combine(outputPath, segment);
    CombineKeepsParts(outputPath, segment);
    assert r[|r| - |segment|..] == segment;
    assert r[|r| - 1] == segment[|segment| - 1];
  }

  /** "<version>_<manifestVersion>" is a plain name of at least two characters whose tail reads back as the version number. */
  lemma VersionDirectoryPlain(version: string, manifestVersion: int)
    requires IsPlainSegment(version)
    ensures var dir := VersionDirectory(version, manifestVersion);
      && IsPlainSegment(dir) && DIRECTORY_SEPARATOR !in dir && |dir| >= 2
      && dir[|version| + 1..] == IntToDecimal(manifestVersion)
  {
    var digits := IntToDecimal(manifestVersion);
    var dir := version + "_" + digits;
    forall i | 0 <= i < |dir| ensures !IsSeparator(dir[i]) && dir[i] != VOLUME_SEPARATOR {
      if i < |version| {
        assert dir[i] == version[i];
      } else if i > |version| {
        assert dir[i] == digits[i - |version| - 1];
      }
    }
    assert dir[|version| + 1..] == digits;
  }

  lemma AfterBackslashOfJoin(front: string, name: string)
    requires DIRECTORY_SEPARATOR !in name
    ensures AfterLastBackslash(front + [DIRECTORY_SEPARATOR] + name) == name
  {
    var s := front + [DIRECTORY_SEPARATOR] + name;
    var i := LastIndexOf(s, DIRECTORY_SEPARATOR);
    assert s[|front|] == DIRECTORY_SEPARATOR;
    assert forall j :: |front| < j < |s| ==> s[j] == name[j - |front| - 1];
    assert i == |front|;
  }

  // ---------------------------------------------------------------------------
  // Compiling and cleaning up

  /** A null build list yields a null manifest; otherwise the compiler's result. */
  function BuildAssetBundles(
    outputPath: string, bundleBuilds: Option<seq<AssetBundleBuild>>, options: BuildAssetBundleOptions,
    targetPlatform: BuildTarget, env: Editor): (unityManifest: Option<UnityManifest>)
    ensures bundleBuilds.None? ==> unityManifest.None?
  {
    if bundleBuilds.None? then None
    else env.compile(outputPath, bundleBuilds.value, options, targetPlatform)
  }

  /** With no build list the compiler is never consulted: any two editors give the same result. */
  lemma NullBuildListSkipsCompiler(
    outputPath: string, options: BuildAssetBundleOptions, targetPlatform: BuildTarget, env1: Editor, env2: Editor)
    ensures BuildAssetBundles(outputPath, None, options, targetPlatform, env1)
         == BuildAssetBundles(outputPath, None, options, targetPlatform, env2)
  {
  }

  /**
   * DeleteManifestFiles' test: the file is the compiler's aggregate bundle, named
   * after the output directory, or a side file with extension ".manifest".
   */
  predicate IsDeleted(outputPath: string, file: FileEntry) {
    file.name == AfterLastBackslash(outputPath) || Extension(file.name) == ".manifest"
  }

  /** The deletion test, in plain terms: the directory's own name, or a name ending in ".manifest". */
  lemma IsDeletedIff(outputPath: string, file: FileEntry)
    ensures IsDeleted(outputPath, file) <==>
      (file.name == AfterLastBackslash(outputPath) || EndsWith(file.name, ".manifest"))
  {
    ManifestExtensionIsSuffix(file.name);
  }

  /** In a build directory the aggregate file to delete is the one named "<version>_<manifestVersion>". */
  lemma DeletesAggregateBundle(outputPath: string, targetPlatform: BuildTarget, version: string, manifestVersion: int, file: FileEntry)
    requires targetPlatform != "" && IsPlainSegment(targetPlatform) && IsPlainSegment(version)
    requires file.name == VersionDirectory(version, manifestVersion)
    ensures IsDeleted(GetFullOutputPath(outputPath, targetPlatform, version, manifestVersion), file)
  {
    FullOutputPathLayout(outputPath, targetPlatform, version, manifestVersion);
  }

  function Survives(outputPath: string): FileEntry -> bool {
    (f: FileEntry) => !IsDeleted(outputPath, f)
  }

  function Doomed(outputPath: string): FileEntry -> bool {
    (f: FileEntry) => IsDeleted(outputPath, f)
  }

  /** Delete every listed file the test selects; report what remains and what was deleted. */
  method DeleteManifestFiles(outputPath: string, files: seq<FileEntry>)
    returns (remaining: seq<FileEntry>, deleted: seq<FileEntry>)
    ensures remaining == Filter(files, Survives(outputPath))
    ensures deleted == Filter(files, Doomed(outputPath))
    ensures |remaining| + |deleted| == |files|
  {
    var directory := AfterLastBackslash(outputPath);
    remaining, deleted := [], [];
    var i := 0;
    while i < |files|
      invariant 0 <= i <= |files|
      invariant remaining == Filter(files[..i], Survives(outputPath))
      invariant deleted == Filter(files[..i], Doomed(outputPath))
      invariant |remaining| + |deleted| == i
    {
      var file := files[i];
      FilterStep(files, Survives(outputPath), i);
      FilterStep(files, Doomed(outputPath), i);
      assert Doomed(outputPath)(file) == IsDeleted(outputPath, file) == !Survives(outputPath)(file);
      if file.name == directory || Extension(file.name) == ".manifest" {
        deleted := deleted + [file];
      } else {
        remaining := remaining + [file];
      }
      i := i + 1;
    }
    assert files[..i] == files;
  }

  /** Exactly the selected files are deleted, every other file stays, and each list keeps the listing order. */
  lemma DeleteManifestFilesPartition(outputPath: string, files: seq<FileEntry>)
    ensures forall f :: f in Filter(files, Doomed(outputPath)) <==> f in files && IsDeleted(outputPath, f)
    ensures forall f :: f in Filter(files, Survives(outputPath)) <==> f in files && !IsDeleted(outputPath, f)
    ensures IsSubsequence(Filter(files, Survives(outputPath)), files)
    ensures IsSubsequence(Filter(files, Doomed(outputPath)), files)
  {
    FilterMembership(files, Doomed(outputPath));
    FilterMembership(files, Survives(outputPath));
    FilterIsSubsequence(files, Survives(outputPath));
    FilterIsSubsequence(files, Doomed(outputPath));
  }

  // ---------------------------------------------------------------------------
  // Raw bundles

  /** The first raw bundle whose Assets[0] does not exist, in declaration order. */
  function RawFailure(raw: seq<BundleBuildInfo>): Option<BuildError>
    decreases |raw|
  {
    if raw == [] then None
    else
      var earlier := RawFailure(raw[..|raw| - 1]);
      var b := raw[|raw| - 1];
      if earlier.Some? then earlier
      else if |b.assets| == 0 then Some(AssetsEmpty(b.relativePath))
      else None
  }

  /** A raw pass fails exactly when some raw bundle declares no asset, and then names one of those. */
  lemma {:induction false} RawFailureIff(raw: seq<BundleBuildInfo>)
    ensures RawFailure(raw).None? <==> forall i :: 0 <= i < |raw| ==> |raw[i].assets| > 0
    ensures RawFailure(raw).Some? ==>
      exists i :: 0 <= i < |raw| && raw[i].assets == [] && RawFailure(raw) == Some(AssetsEmpty(raw[i].relativePath))
    decreases |raw|
  {
    if raw != [] {
      var init := raw[..|raw| - 1];
      RawFailureIff(init);
      assert forall i :: 0 <= i < |init| ==> init[i] == raw[i];
    }
  }

  /** Copy each raw bundle's only asset to <outputPath>\<relativePath>, in declaration order. */
  method BuildRawBundles(outputPath: string, rawBundleBuilds: seq<BundleBuildInfo>)
    returns (r: Result<seq<FileCopy>, BuildError>)
    ensures r.Failure? <==> RawFailure(rawBundleBuilds).Some?
    ensures r.Failure? ==> r.error == RawFailure(rawBundleBuilds).value
    ensures r.Success? ==> |r.value| == |rawBundleBuilds| && forall i :: 0 <= i < |rawBundleBuilds| ==>
      |rawBundleBuilds[i].assets| > 0
      && r.value[i] == FileCopy(rawBundleBuilds[i].assets[0].assetName, Combine(outputPath, rawBundleBuilds[i].relativePath))
  {
    var copies: seq<FileCopy> := [];
    var i := 0;
    while i < |rawBundleBuilds|
      invariant 0 <= i <= |rawBundleBuilds|
      invariant RawFailure(rawBundleBuilds[..i]).None?
      invariant |copies| == i && forall k :: 0 <= k < i ==>
        |rawBundleBuilds[k].assets| > 0
        && copies[k] == FileCopy(rawBundleBuilds[k].assets[0].assetName, Combine(outputPath, rawBundleBuilds[k].relativePath))
    {
      var rawBundleBuildInfo := rawBundleBuilds[i];
      assert rawBundleBuilds[..i + 1][..i] == rawBundleBuilds[..i];
      if |rawBundleBuildInfo.assets| == 0 {
        RawFailurePrefix(rawBundleBuilds, i + 1);
        return Failure(AssetsEmpty(rawBundleBuildInfo.relativePath));
      }
      var rawAssetName := rawBundleBuildInfo.assets[0].assetName;
      var targetFileName := Combine(outputPath, rawBundleBuildInfo.relativePath);
      copies := copies + [FileCopy(rawAssetName, targetFileName)];
      i := i + 1;
    }
    assert rawBundleBuilds[..i] == rawBundleBuilds;
    r := Success(copies);
  }

  /** Once a prefix of the raw list fails, the whole list fails the same way. */
  lemma {:induction false} RawFailurePrefix(raw: seq<BundleBuildInfo>, n: nat)
    requires n <= |raw| && RawFailure(raw[..n]).Some?
    ensures RawFailure(raw) == RawFailure(raw[..n])
    decreases |raw| - n
  {
    if n < |raw| {
      assert raw[..n + 1][..n] == raw[..n];
      RawFailurePrefix(raw, n + 1);
    } else {
      assert raw[..n] == raw;
    }
  }

  // ---------------------------------------------------------------------------
  // The manifest

  /** The first failure of the normal pass: an empty asset list, or the null compiler manifest. */
  function NormalFailure(normal: seq<BundleBuildInfo>, unityManifest: Option<UnityManifest>): Option<BuildError>
    decreases |normal|
  {
    if normal == [] then None
    else
      var earlier := NormalFailure(normal[..|normal| - 1], unityManifest);
      var b := normal[|normal| - 1];
      if earlier.Some? then earlier
      else if |b.assets| == 0 then Some(AssetsEmpty(b.relativePath))
      else if unityManifest.None? then Some(NullUnityManifest)
      else None
  }

  /** CreateManifest's outcome when it throws: the normal pass runs first, then the raw pass. */
  function ManifestFailure(normal: seq<BundleBuildInfo>, raw: seq<BundleBuildInfo>, unityManifest: Option<UnityManifest>): Option<BuildError> {
    if NormalFailure(normal, unityManifest).Some? then NormalFailure(normal, unityManifest) else RawFailure(raw)
  }

  /**
   * CreateManifest succeeds exactly when every declared bundle has a first asset
   * and, if there are normal bundles, the compiler produced a manifest.
   */
  lemma {:induction false} NormalFailureIff(normal: seq<BundleBuildInfo>, unityManifest: Option<UnityManifest>)
    ensures NormalFailure(normal, unityManifest).None? <==>
      (forall i :: 0 <= i < |normal| ==> |normal[i].assets| > 0) && (normal != [] ==> unityManifest.Some?)
    decreases |normal|
  {
    if normal != [] {
      var init := normal[..|normal| - 1];
      NormalFailureIff(init, unityManifest);
      assert forall i :: 0 <= i < |init| ==> init[i] == normal[i];
    }
  }

  lemma ManifestFailureIff(normal: seq<BundleBuildInfo>, raw: seq<BundleBuildInfo>, unityManifest: Option<UnityManifest>)
    ensures ManifestFailure(normal, raw, unityManifest).None? <==>
      && (forall i :: 0 <= i < |normal| ==> |normal[i].assets| > 0)
      && (forall i :: 0 <= i < |raw| ==> |raw[i].assets| > 0)
      && (normal != [] ==> unityManifest.Some?)
  {
    NormalFailureIff(normal, unityManifest);
    RawFailureIff(raw);
  }

  lemma {:induction false} NormalFailurePrefix(normal: seq<BundleBuildInfo>, unityManifest: Option<UnityManifest>, n: nat)
    requires n <= |normal| && NormalFailure(normal[..n], unityManifest).Some?
    ensures NormalFailure(normal, unityManifest) == NormalFailure(normal[..n], unityManifest)
    decreases |normal| - n
  {
    if n < |normal| {
      assert normal[..n + 1][..n] == normal[..n];
      NormalFailurePrefix(normal, unityManifest, n + 1);
    } else {
      assert normal[..n] == normal;
    }
  }

  /** A manifest asset of a compiled bundle: the declared name and its direct dependencies. */
  predicate IsNormalAsset(env: Editor, a: AssetBuildInfo, m: AssetManifestInfo) {
    m == AssetManifestInfo(a.assetName, Some(env.dependencies(a.assetName)))
  }

  /** The manifest entry of a compiled bundle. */
  predicate IsNormalEntry(env: Editor, outputPath: string, unityManifest: Option<UnityManifest>, b: BundleBuildInfo, e: BundleManifestInfo) {
    && |b.assets| > 0 && unityManifest.Some?
    && e.relativePath == b.relativePath && e.directory == b.directoryName
    && e.bundleName == b.bundleName && e.group == b.group
    && !e.isRaw
    && (e.isScene <==> EndsWith(b.assets[0].assetName, ".unity"))
    && e.length == env.fileLength(Combine(outputPath, b.relativePath))
    && e.hash == unityManifest.value.bundleHash(b.relativePath)
    && |e.assets| == |b.assets|
    && forall j :: 0 <= j < |b.assets| ==> IsNormalAsset(env, b.assets[j], e.assets[j])
  }

  /** The manifest entry of a raw bundle: length and hash of the copied file's bytes, one asset without dependencies. */
  predicate IsRawEntry(env: Editor, outputPath: string, b: BundleBuildInfo, e: BundleManifestInfo) {
    var bytes := env.readAllBytes(Combine(outputPath, b.relativePath));
    && |b.assets| > 0
    && e.relativePath == b.relativePath && e.directory == b.directoryName
    && e.bundleName == b.bundleName && e.group == b.group
    && e.isRaw && !e.isScene
    && e.length == |bytes|
    && e.hash == env.hashBytes(bytes)
    && e.assets == [AssetManifestInfo(b.assets[0].assetName, None)]
  }

  /** One entry per compiled bundle, in declaration order. */
  predicate NormalEntries(
    env: Editor, outputPath: string, unityManifest: Option<UnityManifest>,
    builds: seq<BundleBuildInfo>, entries: seq<BundleManifestInfo>)
  {
    |entries| == |builds| && forall i :: 0 <= i < |builds| ==> IsNormalEntry(env, outputPath, unityManifest, builds[i], entries[i])
  }

  /** One entry per raw bundle, in declaration order. */
  predicate RawEntries(env: Editor, outputPath: string, builds: seq<BundleBuildInfo>, entries: seq<BundleManifestInfo>) {
    |entries| == |builds| && forall i :: 0 <= i < |builds| ==> IsRawEntry(env, outputPath, builds[i], entries[i])
  }

  /** The bundle list of a manifest: the entries of the compiled bundles, then those of the raw bundles. */
  predicate DescribesBuild(
    env: Editor, outputPath: string, unityManifest: Option<UnityManifest>,
    normal: seq<BundleBuildInfo>, raw: seq<BundleBuildInfo>, bundles: seq<BundleManifestInfo>)
  {
    && |bundles| == |normal| + |raw|
    && NormalEntries(env, outputPath, unityManifest, normal, bundles[..|normal|])
    && RawEntries(env, outputPath, raw, bundles[|normal|..])
  }

  /** The entry of one compiled bundle, its assets gathered in a loop. */
  method NormalBundleEntry(env: Editor, outputPath: string, unityManifest: UnityManifest, bundleBuildInfo: BundleBuildInfo)
    returns (e: BundleManifestInfo)
    requires |bundleBuildInfo.assets| > 0
    ensures IsNormalEntry(env, outputPath, Some(unityManifest), bundleBuildInfo, e)
  {
    var isScene := EndsWith(bundleBuildInfo.assets[0].assetName, ".unity");
    var fullPath := Combine(outputPath, bundleBuildInfo.relativePath);
    var length := env.fileLength(fullPath);
    var hash := unityManifest.bundleHash(bundleBuildInfo.relativePath);
    var assets: seq<AssetManifestInfo> := [];
    var j := 0;
    while j < |bundleBuildInfo.assets|
      invariant 0 <= j <= |bundleBuildInfo.assets|
      invariant |assets| == j
      invariant forall k :: 0 <= k < j ==> IsNormalAsset(env, bundleBuildInfo.assets[k], assets[k])
    {
      var assetName := bundleBuildInfo.assets[j].assetName;
      assets := assets + [AssetManifestInfo(assetName, Some(env.dependencies(assetName)))];
      j := j + 1;
    }
    e := BundleManifestInfo(
      bundleBuildInfo.relativePath, bundleBuildInfo.directoryName, bundleBuildInfo.bundleName, bundleBuildInfo.group,
      false, isScene, length, hash, assets);
  }

  /** The entry of one raw bundle, from the bytes of its copy in the output directory. */
  method RawBundleEntry(env: Editor, outputPath: string, bundleBuildInfo: BundleBuildInfo)
    returns (e: BundleManifestInfo)
    requires |bundleBuildInfo.assets| > 0
    ensures IsRawEntry(env, outputPath, bundleBuildInfo, e)
  {
    var fullPath := Combine(outputPath, bundleBuildInfo.relativePath);
    var bytes := env.readAllBytes(fullPath);
    var assetManifestInfo := AssetManifestInfo(bundleBuildInfo.assets[0].assetName, None);
    e := BundleManifestInfo(
      bundleBuildInfo.relativePath, bundleBuildInfo.directoryName, bundleBuildInfo.bundleName, bundleBuildInfo.group,
      true, false, |bytes|, env.hashBytes(bytes), [assetManifestInfo]);
  }

  /**
   * The first pass of CreateManifest: one entry per compiled bundle, appended in
   * declaration order; stops at the first bundle without assets, or at the first
   * bundle when the compiler manifest is null.
   */
  method AddNormalBundles(
    env: Editor, outputPath: string, bundleBuilds: seq<BundleBuildInfo>, unityManifest: Option<UnityManifest>,
    manifest: CatAssetManifest)
    returns (failure: Option<BuildError>)
    modifies manifest
    ensures failure == NormalFailure(bundleBuilds, unityManifest)
    ensures manifest.gameVersion == old(manifest.gameVersion) && manifest.manifestVersion == old(manifest.manifestVersion)
    ensures failure.None? ==> |old(manifest.bundles)| <= |manifest.bundles|
    ensures failure.None? ==> manifest.bundles[..|old(manifest.bundles)|] == old(manifest.bundles)
    ensures failure.None? ==> NormalEntries(env, outputPath, unityManifest, bundleBuilds, manifest.bundles[|old(manifest.bundles)|..])
  {
    ghost var start, added := manifest.bundles, [];
    var i := 0;
    while i < |bundleBuilds|
      invariant 0 <= i <= |bundleBuilds|
      invariant NormalFailure(bundleBuilds[..i], unityManifest).None?
      invariant manifest.gameVersion == old(manifest.gameVersion) && manifest.manifestVersion == old(manifest.manifestVersion)
      invariant manifest.bundles == start + added
      invariant NormalEntries(env, outputPath, unityManifest, bundleBuilds[..i], added)
    {
      var bundleBuildInfo := bundleBuilds[i];
      assert bundleBuilds[..i + 1][..i] == bundleBuilds[..i];
      if |bundleBuildInfo.assets| == 0 {
        NormalFailurePrefix(bundleBuilds, unityManifest, i + 1);
        return Some(AssetsEmpty(bundleBuildInfo.relativePath));
      }
      if unityManifest.None? {
        NormalFailurePrefix(bundleBuilds, unityManifest, i + 1);
        return Some(NullUnityManifest);
      }
      var bundleManifestInfo := NormalBundleEntry(env, outputPath, unityManifest.value, bundleBuildInfo);
      manifest.bundles := manifest.bundles + [bundleManifestInfo];
      added := added + [bundleManifestInfo];
      i := i + 1;
    }
    assert bundleBuilds[..i] == bundleBuilds;
    assert manifest.bundles[..|start|] == start && manifest.bundles[|start|..] == added;
    return None;
  }

  /** The second pass of CreateManifest: one entry per raw bundle, appended in declaration order. */
  method AddRawBundles(env: Editor, outputPath: string, rawBundleBuilds: seq<BundleBuildInfo>, manifest: CatAssetManifest)
    returns (failure: Option<BuildError>)
    modifies manifest
    ensures failure == RawFailure(rawBundleBuilds)
    ensures manifest.gameVersion == old(manifest.gameVersion) && manifest.manifestVersion == old(manifest.manifestVersion)
    ensures failure.None? ==> |old(manifest.bundles)| <= |manifest.bundles|
    ensures failure.None? ==> manifest.bundles[..|old(manifest.bundles)|] == old(manifest.bundles)
    ensures failure.None? ==> RawEntries(env, outputPath, rawBundleBuilds, manifest.bundles[|old(manifest.bundles)|..])
  {
    ghost var start, added := manifest.bundles, [];
    var i := 0;
    while i < |rawBundleBuilds|
      invariant 0 <= i <= |rawBundleBuilds|
      invariant RawFailure(rawBundleBuilds[..i]).None?
      invariant manifest.gameVersion == old(manifest.gameVersion) && manifest.manifestVersion == old(manifest.manifestVersion)
      invariant manifest.bundles == start + added
      invariant RawEntries(env, outputPath, rawBundleBuilds[..i], added)
    {
      var bundleBuildInfo := rawBundleBuilds[i];
      assert rawBundleBuilds[..i + 1][..i] == rawBundleBuilds[..i];
      if |bundleBuildInfo.assets| == 0 {
        RawFailurePrefix(rawBundleBuilds, i + 1);
        return Some(AssetsEmpty(bundleBuildInfo.relativePath));
      }
      var bundleManifestInfo := RawBundleEntry(env, outputPath, bundleBuildInfo);
      manifest.bundles := manifest.bundles + [bundleManifestInfo];
      added := added + [bundleManifestInfo];
      i := i + 1;
    }
    assert rawBundleBuilds[..i] == rawBundleBuilds;
    assert manifest.bundles[..|start|] == start && manifest.bundles[|start|..] == added;
    return None;
  }

  /**
   * Build the manifest: the versions, then the compiled bundles, then the raw
   * bundles.  A bundle without assets, or a null compiler manifest met by a compiled
   * bundle, aborts the build with that error.
   */
  method CreateManifest(
    env: Editor, outputPath: string, manifestVersion: int,
    bundleBuilds: seq<BundleBuildInfo>, rawBundleBuilds: seq<BundleBuildInfo>, unityManifest: Option<UnityManifest>)
    returns (r: Result<CatAssetManifest, BuildError>)
    ensures r.Failure? <==> ManifestFailure(bundleBuilds, rawBundleBuilds, unityManifest).Some?
    ensures r.Failure? ==> r.error == ManifestFailure(bundleBuilds, rawBundleBuilds, unityManifest).value
    ensures r.Success? ==> fresh(r.value)
    ensures r.Success? ==> r.value.gameVersion == env.version && r.value.manifestVersion == manifestVersion
    ensures r.Success? ==> DescribesBuild(env, outputPath, unityManifest, bundleBuilds, rawBundleBuilds, r.value.bundles)
  {
    var manifest := new CatAssetManifest(env.version, manifestVersion);
    var failure := AddNormalBundles(env, outputPath, bundleBuilds, unityManifest, manifest);
    if failure.Some? {
      return Failure(failure.value);
    }
    assert manifest.bundles[0..] == manifest.bundles;
    failure := AddRawBundles(env, outputPath, rawBundleBuilds, manifest);
    if failure.Some? {
      return Failure(failure.value);
    }
    r := Success(manifest);
  }

  /** WriteManifestFile: the manifest's current contents, placed in `outputPath`. */
  function WriteManifestFile(outputPath: string, manifest: CatAssetManifest): ManifestFile
    reads manifest
  {
    ManifestFile(outputPath, manifest.gameVersion, manifest.manifestVersion, manifest.bundles)
  }

  // ---------------------------------------------------------------------------
  // Promotion to the read-only directory

  /** Whether a bundle of this group is copied: every group when copyGroup is null or empty, else the ';'-separated ones. */
  predicate IsPromoted(copyGroup: Option<string>, group: string) {
    copyGroup.None? || copyGroup.value == "" || group in Split(copyGroup.value, ';')
  }

  function Promotes(copyGroup: Option<string>): BundleManifestInfo -> bool {
    (b: BundleManifestInfo) => IsPromoted(copyGroup, b.group)
  }

  /** The bundles CopyToReadOnlyPath copies and keeps in the read-only manifest. */
  function PromotedBundles(bundles: seq<BundleManifestInfo>, copyGroup: Option<string>): seq<BundleManifestInfo> {
    Filter(bundles, Promotes(copyGroup))
  }

  /**
   * Copy the bundles of the chosen groups, replace the manifest's bundle list by the
   * copied ones, and write that manifest to the read-only directory.
   */
  method CopyToReadOnlyPath(env: Editor, outputPath: string, copyGroup: Option<string>, manifest: CatAssetManifest)
    returns (written: ManifestFile)
    modifies manifest
    ensures manifest.bundles == PromotedBundles(old(manifest.bundles), copyGroup)
    ensures manifest.gameVersion == old(manifest.gameVersion) && manifest.manifestVersion == old(manifest.manifestVersion)
    ensures written == WriteManifestFile(env.streamingAssetsPath, manifest)
  {
    var copyGroupSet: Option<set<string>> := None;
    if copyGroup.Some? && copyGroup.value != "" {
      copyGroupSet := Some(set g | g in Split(copyGroup.value, ';'));
    }
    var bundles := manifest.bundles;
    var copiedBundles: seq<BundleManifestInfo> := [];
    var i := 0;
    while i < |bundles|
      invariant 0 <= i <= |bundles|
      invariant copiedBundles == Filter(bundles[..i], Promotes(copyGroup))
      invariant unchanged(manifest)
    {
      var bundleManifestInfo := bundles[i];
      FilterStep(bundles, Promotes(copyGroup), i);
      assert Promotes(copyGroup)(bundleManifestInfo) == IsPromoted(copyGroup, bundleManifestInfo.group);
      if copyGroupSet.Some? && bundleManifestInfo.group !in copyGroupSet.value {
        i := i + 1;
        continue;
      }
      copiedBundles := copiedBundles + [bundleManifestInfo];
      i := i + 1;
    }
    assert bundles[..i] == bundles;
    manifest.bundles := copiedBundles;
    written := WriteManifestFile(env.streamingAssetsPath, manifest);
  }

  /**
   * The read-only manifest agrees with the full one: it keeps exactly the bundles
   * of the chosen groups, unchanged and in the same order.
   */
  lemma PromotedBundlesSelect(bundles: seq<BundleManifestInfo>, copyGroup: Option<string>)
    ensures forall b :: b in PromotedBundles(bundles, copyGroup) <==> b in bundles && IsPromoted(copyGroup, b.group)
    ensures IsSubsequence(PromotedBundles(bundles, copyGroup), bundles)
  {
    FilterMembership(bundles, Promotes(copyGroup));
    FilterIsSubsequence(bundles, Promotes(copyGroup));
  }

  /** A null or empty copy group promotes the whole manifest. */
  lemma NoCopyGroupPromotesAll(bundles: seq<BundleManifestInfo>, copyGroup: Option<string>)
    requires copyGroup.None? || copyGroup.value == ""
    ensures PromotedBundles(bundles, copyGroup) == bundles
  {
    FilterKeepsAll(bundles, Promotes(copyGroup));
  }

  /** The group list is cut at every ';': a group is chosen exactly when it is one of the pieces. */
  lemma CopyGroupPieces(copyGroup: string, group: string)
    requires copyGroup != ""
    ensures IsPromoted(Some(copyGroup), group) <==> exists i :: 0 <= i < |Split(copyGroup, ';')| && Split(copyGroup, ';')[i] == group
    ensures Join(Split(copyGroup, ';'), ';') == copyGroup
  {
    SplitJoinRoundTrip(copyGroup, ';');
  }

  /** Each raw entry's length is the byte count of the very file BuildRawBundles copied into place. */
  lemma RawEntriesMeasureCopies(
    env: Editor, outputPath: string, unityManifest: Option<UnityManifest>,
    normal: seq<BundleBuildInfo>, raw: seq<BundleBuildInfo>, bundles: seq<BundleManifestInfo>, copies: seq<FileCopy>)
    requires DescribesBuild(env, outputPath, unityManifest, normal, raw, bundles)
    requires |copies| == |raw| && forall i :: 0 <= i < |raw| ==> copies[i].destination == Combine(outputPath, raw[i].relativePath)
    ensures forall i :: 0 <= i < |raw| ==> bundles[|normal| + i].length == |env.readAllBytes(copies[i].destination)|
  {
    forall i | 0 <= i < |raw|
      ensures bundles[|normal| + i].length == |env.readAllBytes(copies[i].destination)|
    {
      assert bundles[|normal|..][i] == bundles[|normal| + i];
    }
  }

  // ---------------------------------------------------------------------------
  // The whole pipeline

  /** The promotion guard: copying is requested and exactly one platform is being built. */
  predicate ShouldPromote(isCopyToReadOnlyPath: bool, targetPlatformCount: nat) {
    isCopyToReadOnlyPath && targetPlatformCount == 1
  }

  /** What one run leaves behind: the output directory, its files after cleanup, the raw copies and the manifests written. */
  datatype BuildOutcome = BuildOutcome(
    fullOutputPath: string, remainingFiles: seq<FileEntry>, rawCopies: seq<FileCopy>, written: seq<ManifestFile>)

  /**
   * The tail of ExecuteBundleBuildPipeline: write the full manifest to the build
   * directory, then, when the promotion guard holds, copy the chosen groups and
   * write the reduced manifest to the read-only directory.
   */
  method PublishManifest(env: Editor, config: BundleBuildConfig, fullOutputPath: string, catAssetManifest: CatAssetManifest)
    returns (written: seq<ManifestFile>)
    modifies catAssetManifest
    ensures catAssetManifest.bundles == if ShouldPromote(config.isCopyToReadOnlyPath, |config.targetPlatforms|)
      then PromotedBundles(old(catAssetManifest.bundles), config.copyGroup) else old(catAssetManifest.bundles)
    ensures catAssetManifest.gameVersion == old(catAssetManifest.gameVersion)
    ensures catAssetManifest.manifestVersion == old(catAssetManifest.manifestVersion)
    ensures |written| == (if ShouldPromote(config.isCopyToReadOnlyPath, |config.targetPlatforms|) then 2 else 1)
    ensures written[0] == ManifestFile(fullOutputPath, old(catAssetManifest.gameVersion),
      old(catAssetManifest.manifestVersion), old(catAssetManifest.bundles))
    ensures |written| == 2 ==> written[1] == written[0].(directory := env.streamingAssetsPath,
      bundles := PromotedBundles(written[0].bundles, config.copyGroup))
  {
    var full := WriteManifestFile(fullOutputPath, catAssetManifest);
    written := [full];
    if ShouldPromote(config.isCopyToReadOnlyPath, |config.targetPlatforms|) {
      var readOnly := CopyToReadOnlyPath(env, fullOutputPath, config.copyGroup, catAssetManifest);
      written := written + [readOnly];
    }
  }

  /**
   * ExecuteBundleBuildPipeline for one target platform.  On success the first
   * manifest written is the full one, in the build directory; a second one, in the
   * read-only directory with the promoted bundles only, is written exactly when the
   * promotion guard holds.
   */
  method ExecuteBundleBuildPipeline(env: Editor, config: BundleBuildConfig, targetPlatform: BuildTarget)
    returns (r: Result<BuildOutcome, BuildError>)
    ensures var unityManifest := BuildAssetBundles(
        GetFullOutputPath(config.outputPath, targetPlatform, env.version, config.manifestVersion),
        config.assetBundleBuilds, config.options, targetPlatform, env);
      r.Failure? <==> (RawFailure(config.rawBundleBuilds).Some?
        || ManifestFailure(config.normalBundleBuilds, config.rawBundleBuilds, unityManifest).Some?)
    ensures r.Failure? ==> r.error == if RawFailure(config.rawBundleBuilds).Some? then RawFailure(config.rawBundleBuilds).value
      else ManifestFailure(config.normalBundleBuilds, config.rawBundleBuilds,
        BuildAssetBundles(GetFullOutputPath(config.outputPath, targetPlatform, env.version, config.manifestVersion),
          config.assetBundleBuilds, config.options, targetPlatform, env)).value
    ensures r.Success? ==>
      var out := r.value;
      var fullOutputPath := GetFullOutputPath(config.outputPath, targetPlatform, env.version, config.manifestVersion);
      var unityManifest := BuildAssetBundles(fullOutputPath, config.assetBundleBuilds, config.options, targetPlatform, env);
      && out.fullOutputPath == fullOutputPath
      && out.remainingFiles == Filter(env.listFiles(fullOutputPath), Survives(fullOutputPath))
      && |out.rawCopies| == |config.rawBundleBuilds|
      && (forall i :: 0 <= i < |config.rawBundleBuilds| ==>
            |config.rawBundleBuilds[i].assets| > 0
            && out.rawCopies[i] == FileCopy(config.rawBundleBuilds[i].assets[0].assetName,
                 Combine(fullOutputPath, config.rawBundleBuilds[i].relativePath)))
      && |out.written| == (if ShouldPromote(config.isCopyToReadOnlyPath, |config.targetPlatforms|) then 2 else 1)
      && out.written[0].directory == fullOutputPath
      && out.written[0].gameVersion == env.version && out.written[0].manifestVersion == config.manifestVersion
      && DescribesBuild(env, fullOutputPath, unityManifest, config.normalBundleBuilds, config.rawBundleBuilds, out.written[0].bundles)
      && (|out.written| == 2 ==>
            out.written[1] == out.written[0].(directory := env.streamingAssetsPath,
              bundles := PromotedBundles(out.written[0].bundles, config.copyGroup)))
  {
    var fullOutputPath := GetFullOutputPath(config.outputPath, targetPlatform, env.version, config.manifestVersion);
    var unityManifest := BuildAssetBundles(fullOutputPath, config.assetBundleBuilds, config.options, targetPlatform, env);
    var remaining, _ := DeleteManifestFiles(fullOutputPath, env.listFiles(fullOutputPath));
    var copies := BuildRawBundles(fullOutputPath, config.rawBundleBuilds);
    if copies.Failure? {
      return Failure(copies.error);
    }
    var created := CreateManifest(env, fullOutputPath, config.manifestVersion,
      config.normalBundleBuilds, config.rawBundleBuilds, unityManifest);
    if created.Failure? {
      return Failure(created.error);
    }
    var catAssetManifest := created.value;
    var written := PublishManifest(env, config, fullOutputPath, catAssetManifest);
    r := Success(BuildOutcome(fullOutputPath, remaining, copies.value, written));
  }
}
