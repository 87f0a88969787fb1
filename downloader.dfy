/** `download_paper_server` of backend/src/downloader.rs: pick the latest
    PaperMC build of a version, fetch its download descriptor, download the
    jar, store it at `save_path`, hash the stored file in 8192-byte reads and
    keep the file only when the lower-case hex digest equals the published one.

    The HTTP client is a `PaperApi` value: one function per kind of request,
    from the URL to what `send().await?.json().await?` (or `.bytes()`) yields,
    so the answers may depend on the URL. SHA-256 is a parameter `sha256` of
    type `seq<byte> -> Digest`: nothing is assumed of it but its length. The
    file system is a value: a set of directories and a map from path to bytes. */
module Downloader {

  import opened Wrappers
  import opened Text

  /** The length of `buffer` in the verification loop. */
  const BufferSize: nat := 8192

  /** The fixed part of all three URL templates. */
  const VersionsEndpoint: string := "https://api.papermc.io/v2/projects/paper/versions/"

  // ---------------------------------------------------------------------------
  // URL templates, each one `format!` string of the source

  function VersionUrl(version: string): string {
    VersionsEndpoint + version
  }

  function BuildUrl(version: string, build: int32): string {
    VersionsEndpoint + version + "/builds/" + IntToDecimal(build as int)
  }

  function DownloadUrl(version: string, build: int32, name: string): string {
    VersionsEndpoint + version + "/builds/" + IntToDecimal(build as int) + "/downloads/" + name
  }

  // ---------------------------------------------------------------------------
  // The world outside: network, SHA-256, file system

  /** `downloads.application` of the build response. */
  datatype Application = Application(name: string, sha256: string)

  /** The three requests `download_paper_server` sends; `Err` carries the
      client's or the JSON decoder's error. */
  datatype PaperApi = PaperApi(
    versionInfo: string -> Result<seq<int32>, string>,
    buildInfo: string -> Result<Application, string>,
    download: string -> Result<seq<byte>, string>)

  /** What `Sha256::finalize` returns: 32 bytes. */
  type Digest = d: seq<byte> | |d| == 32 witness seq(32, _ => 0 as byte)

  /** A path as its components; `[]` is the current directory. */
  type Path = seq<string>

  datatype FileSystem = FileSystem(dirs: set<Path>, files: map<Path, seq<byte>>)

  /** No path is both a directory and a file. */
  predicate WellFormed(fs: FileSystem) {
    fs.dirs !! fs.files.Keys
  }

  /** `Path::parent`: the path without its last component. */
  function Parent(p: Path): Option<Path> {
    if p == [] then None else Some(p[..|p| - 1])
  }

  /** The non-empty prefixes of a path: what `create_dir_all` creates. */
  function Ancestors(d: Path): set<Path> {
    set i | 1 <= i <= |d| :: d[..i]
  }

  datatype IoStep = CreateDirAll | CreateFile

  /** The errors `download_paper_server` returns. */
  datatype DownloadError =
    | RequestFailed(url: string, cause: string)
    | NoBuildsFound
    | IoFailed(step: IoStep, path: Path)
    | HashMismatch(expected: string, computed: string)

  /** `create_dir_all`: fails when some prefix of the path is a file. */
  function MakeDirs(fs: FileSystem, d: Path): Result<FileSystem, DownloadError> {
    if Ancestors(d) !! fs.files.Keys then Ok(fs.(dirs := fs.dirs + Ancestors(d)))
    else Err(IoFailed(CreateDirAll, d))
  }

  /** `File::create`: creates or truncates; fails on the empty path and on a
      directory. */
  function CreateOrTruncate(fs: FileSystem, p: Path): Result<FileSystem, DownloadError> {
    if p == [] || p in fs.dirs then Err(IoFailed(CreateFile, p))
    else Ok(fs.(files := fs.files[p := []]))
  }

  /** `write_all` on a file opened at its start. */
  function WriteAll(fs: FileSystem, p: Path, bytes: seq<byte>): FileSystem
    requires p in fs.files
  {
    fs.(files := fs.files[p := fs.files[p] + bytes])
  }

  /** `remove_file`. */
  function RemoveFile(fs: FileSystem, p: Path): FileSystem {
    fs.(files := fs.files - {p})
  }

  // ---------------------------------------------------------------------------
  // The hash accumulator

  /** The state of `Sha256::new()` after `update` calls: the bytes it has
      absorbed, in order. `finalize` hashes exactly those. */
  datatype Sha256State = Sha256State(absorbed: seq<byte>)

  function Update(h: Sha256State, chunk: seq<byte>): Sha256State {
    Sha256State(h.absorbed + chunk)
  }

  function Finalize(h: Sha256State, sha256: seq<byte> -> Digest): Digest {
    sha256(h.absorbed)
  }

  /** The concatenation of the chunks fed to the hasher. */
  function Flatten(chunks: seq<seq<byte>>): seq<byte>
    decreases |chunks|
  {
    if chunks == [] then [] else chunks[0] + Flatten(chunks[1..])
  }

  lemma {:induction false} FlattenAppend(chunks: seq<seq<byte>>, c: seq<byte>)
    ensures Flatten(chunks + [c]) == Flatten(chunks) + c
    decreases |chunks|
  {
    if chunks == [] {
      assert [] + [c] == [c];
    } else {
      assert (chunks + [c])[1..] == chunks[1..] + [c];
      FlattenAppend(chunks[1..], c);
    }
  }

  // ---------------------------------------------------------------------------
  // The pipeline as a function (the specification the method is proved against)

  /** `builds.last()`. */
  function LatestBuild(builds: seq<int32>): Option<int32> {
    if builds == [] then None else Some(builds[|builds| - 1])
  }

  /** What can be returned, what the file system is afterwards, and the URLs
      requested, in order. */
  datatype Outcome = Outcome(result: Result<string, DownloadError>, fs: FileSystem, requests: seq<string>)

  /** Everything after the three fetches: parent directory, create, write,
      hash what is stored, compare, remove on mismatch. */
  function StoreAndVerify(fs: FileSystem, savePath: Path, bytes: seq<byte>, expected: string,
                          sha256: seq<byte> -> Digest): (Result<string, DownloadError>, FileSystem)
  {
    var dirs := match Parent(savePath) case None => Ok(fs) case Some(d) => MakeDirs(fs, d);
    match dirs
    case Err(e) => (Err(e), fs)
    case Ok(fs1) =>
      match CreateOrTruncate(fs1, savePath)
      case Err(e) => (Err(e), fs1)
      case Ok(fs2) =>
        var fs3 := WriteAll(fs2, savePath, bytes);
        var computed := LowerHex(sha256(fs3.files[savePath]));
        if computed == expected then (Ok(expected), fs3)
        else (Err(HashMismatch(expected, computed)), RemoveFile(fs3, savePath))
  }

  function Download(api: PaperApi, sha256: seq<byte> -> Digest, version: string, savePath: Path,
                    fs: FileSystem): Outcome
  {
    var versionUrl := VersionUrl(version);
    match api.versionInfo(versionUrl)
    case Err(cause) => Outcome(Err(RequestFailed(versionUrl, cause)), fs, [versionUrl])
    case Ok(builds) =>
      match LatestBuild(builds)
      case None => Outcome(Err(NoBuildsFound), fs, [versionUrl])
      case Some(build) =>
        var buildUrl := BuildUrl(version, build);
        match api.buildInfo(buildUrl)
        case Err(cause) => Outcome(Err(RequestFailed(buildUrl, cause)), fs, [versionUrl, buildUrl])
        case Ok(app) =>
          var downloadUrl := DownloadUrl(version, build, app.name);
          var requests := [versionUrl, buildUrl, downloadUrl];
          match api.download(downloadUrl)
          case Err(cause) => Outcome(Err(RequestFailed(downloadUrl, cause)), fs, requests)
          case Ok(bytes) =>
            var (result, fs') := StoreAndVerify(fs, savePath, bytes, app.sha256, sha256);
            Outcome(result, fs', requests)
  }

  // ---------------------------------------------------------------------------
  // The pipeline as the source runs it

  /** `file_to_check.read(&mut buffer)` at offset `pos`: the operating system
      may return any count from 1 up to the buffer size while bytes remain,
      and 0 only at the end of the file. */
  method ReadIntoBuffer(content: seq<byte>, pos: nat) returns (bytesRead: nat)
    requires pos <= |content|
    ensures bytesRead <= BufferSize && pos + bytesRead <= |content|
    ensures bytesRead == 0 <==> pos == |content|
  {
    if pos == |content| {
      bytesRead := 0;
    } else {
      bytesRead :| 1 <= bytesRead <= BufferSize && pos + bytesRead <= |content|;
    }
  }

  /** The verification loop: read until the first 0-byte read, feeding every
      chunk to the hasher, then render the digest as lower-case hex. Returns
      the chunks too, to state how the file was fed. */
  method HashFile(content: seq<byte>, sha256: seq<byte> -> Digest) returns (hex: string, chunks: seq<seq<byte>>)
    ensures Flatten(chunks) == content
    ensures forall i | 0 <= i < |chunks| :: 0 < |chunks[i]| <= BufferSize
    ensures hex == LowerHex(sha256(content)) && |hex| == 64
  {
    var hasher := Sha256State([]);
    var pos: nat := 0;
    chunks := [];
    while true
      invariant pos <= |content|
      invariant hasher.absorbed == content[..pos] == Flatten(chunks)
      invariant forall i | 0 <= i < |chunks| :: 0 < |chunks[i]| <= BufferSize
      decreases |content| - pos
    {
      var bytesRead := ReadIntoBuffer(content, pos);
      if bytesRead == 0 {
        break;
      }
      var chunk := content[pos..pos + bytesRead];
      hasher := Update(hasher, chunk);
      FlattenAppend(chunks, chunk);
      chunks := chunks + [chunk];
      assert content[..pos + bytesRead] == content[..pos] + chunk;
      pos := pos + bytesRead;
    }
    assert content[..pos] == content;
    hex := LowerHex(Finalize(hasher, sha256));
  }

  /** `download_paper_server`, step by step, with every `?` an early return. */
  method DownloadPaperServer(api: PaperApi, sha256: seq<byte> -> Digest, version: string, savePath: Path,
                             fs: FileSystem)
    returns (result: Result<string, DownloadError>, fsAfter: FileSystem, requests: seq<string>)
    ensures Outcome(result, fsAfter, requests) == Download(api, sha256, version, savePath, fs)
  {
    fsAfter := fs;
    var buildApiUrl := VersionUrl(version);
    requests := [buildApiUrl];
    var versionResponse := api.versionInfo(buildApiUrl);
    if versionResponse.Err? {
      result := Err(RequestFailed(buildApiUrl, versionResponse.error));
      return;
    }
    var latest := LatestBuild(versionResponse.value);
    if latest.None? {
      result := Err(NoBuildsFound);
      return;
    }
    var latestBuild := latest.value;

    var downloadInfoUrl := BuildUrl(version, latestBuild);
    requests := requests + [downloadInfoUrl];
    var buildResponse := api.buildInfo(downloadInfoUrl);
    if buildResponse.Err? {
      result := Err(RequestFailed(downloadInfoUrl, buildResponse.error));
      return;
    }
    var downloadName := buildResponse.value.name;
    var expectedHash := buildResponse.value.sha256;

    var downloadUrl := DownloadUrl(version, latestBuild, downloadName);
    requests := requests + [downloadUrl];
    var fileBytes := api.download(downloadUrl);
    if fileBytes.Err? {
      result := Err(RequestFailed(downloadUrl, fileBytes.error));
      return;
    }

    var parent := Parent(savePath);
    if parent.Some? {
      var made := MakeDirs(fsAfter, parent.value);
      if made.Err? {
        result := Err(made.error);
        return;
      }
      fsAfter := made.value;
    }
    var created := CreateOrTruncate(fsAfter, savePath);
    if created.Err? {
      result := Err(created.error);
      return;
    }
    fsAfter := WriteAll(created.value, savePath, fileBytes.value);

    var computedHashHex, _ := HashFile(fsAfter.files[savePath], sha256);
    if computedHashHex == expectedHash {
      result := Ok(expectedHash);
    } else {
      fsAfter := RemoveFile(fsAfter, savePath);
      result := Err(HashMismatch(expectedHash, computedHashHex));
    }
  }
}

/** Properties of the PaperMC download pipeline. */
module DownloaderProperties {

  import opened Wrappers
  import opened Text
  import opened Downloader

  // ---------------------------------------------------------------------------
  // URLs

  /** The three templates agree: each URL extends the previous one. */
  lemma UrlTemplatesCompose(version: string, build: int32, name: string)
    ensures VersionUrl(version) == VersionsEndpoint + version
    ensures BuildUrl(version, build) == VersionUrl(version) + "/builds/" + IntToDecimal(build as int)
    ensures DownloadUrl(version, build, name) == BuildUrl(version, build) + "/downloads/" + name
  {
  }

  lemma CancelPrefix(p: string, x: string, y: string)
    requires p + x == p + y
    ensures x == y
  {
    assert x == (p + x)[|p|..] && y == (p + y)[|p|..];
  }

  /** Within one version, different builds have different build-info URLs. */
  lemma BuildUrlInjective(version: string, a: int32, b: int32)
    ensures BuildUrl(version, a) == BuildUrl(version, b) <==> a == b
  {
    if BuildUrl(version, a) == BuildUrl(version, b) {
      var p := VersionUrl(version) + "/builds/";
      CancelPrefix(p, IntToDecimal(a as int), IntToDecimal(b as int));
      IntToDecimalInjective(a as int, b as int);
    }
  }

  /** Two strings without '/' followed by two strings starting with '/'
      split the same way. */
  lemma SplitAtSlash(x: string, s: string, y: string, t: string)
    requires forall i | 0 <= i < |x| :: x[i] != '/'
    requires forall i | 0 <= i < |y| :: y[i] != '/'
    requires |s| > 0 && s[0] == '/' && |t| > 0 && t[0] == '/'
    requires x + s == y + t
    ensures x == y && s == t
  {
    assert (x + s)[|x|] == '/';
    assert (y + t)[|y|] == '/';
    assert x == (x + s)[..|x|] && s == (x + s)[|x|..];
    assert y == (y + t)[..|y|] && t == (y + t)[|y|..];
  }

  lemma DownloadUrlSplit(version: string, build: int32, name: string)
    ensures DownloadUrl(version, build, name)
      == (VersionUrl(version) + "/builds/") + (IntToDecimal(build as int) + ("/downloads/" + name))
  {
  }

  /** Within one version, the download URL determines both the build and the
      file name: a numeral never contains '/'. */
  lemma DownloadUrlInjective(version: string, a: int32, n: string, b: int32, m: string)
    ensures DownloadUrl(version, a, n) == DownloadUrl(version, b, m) <==> a == b && n == m
  {
    if DownloadUrl(version, a, n) == DownloadUrl(version, b, m) {
      var x, y := IntToDecimal(a as int), IntToDecimal(b as int);
      DownloadUrlSplit(version, a, n);
      DownloadUrlSplit(version, b, m);
      CancelPrefix(VersionUrl(version) + "/builds/", x + ("/downloads/" + n), y + ("/downloads/" + m));
      SplitAtSlash(x, "/downloads/" + n, y, "/downloads/" + m);
      CancelPrefix("/downloads/", n, m);
      IntToDecimalInjective(a as int, b as int);
    }
  }

  /** The version string is pasted unescaped: a version containing
      "/builds/" names another resource of the same API. */
  lemma VersionIsNotEscaped()
    ensures VersionUrl("1.20.1/builds/100") == BuildUrl("1.20.1", 100)
  {
    Decimal100();
  }

  lemma Decimal100()
    ensures IntToDecimal(100) == "100"
  {
    assert NatToDecimal(1) == "1";
    assert NatToDecimal(10) == NatToDecimal(1) + ['0'];
    assert NatToDecimal(100) == NatToDecimal(10) + ['0'];
  }

  // ---------------------------------------------------------------------------
  // Build selection and the order of effects

  /** The three fetched values, when all three fetches succeed and the build
      list is not empty. */
  datatype Fetch = Fetch(build: int32, app: Application, bytes: seq<byte>)

  function Fetched(api: PaperApi, version: string): Option<Fetch> {
    match api.versionInfo(VersionUrl(version))
    case Err(_) => None
    case Ok(builds) =>
      if builds == [] then None
      else
        var build := builds[|builds| - 1];
        match api.buildInfo(BuildUrl(version, build))
        case Err(_) => None
        case Ok(app) =>
          match api.download(DownloadUrl(version, build, app.name))
          case Err(_) => None
          case Ok(bytes) => Some(Fetch(build, app, bytes))
  }

  /** An empty build list is an error before any further request and before
      the file system is touched. */
  lemma EmptyBuildListStopsEarly(api: PaperApi, sha256: seq<byte> -> Digest, version: string,
                                 savePath: Path, fs: FileSystem)
    requires api.versionInfo(VersionUrl(version)) == Ok([])
    ensures Download(api, sha256, version, savePath, fs) == Outcome(Err(NoBuildsFound), fs, [VersionUrl(version)])
  {
  }

  /** The build asked about is the last one of the list, and the file asked
      for is the one that build's descriptor names. */
  lemma RequestsFollowLatestBuild(api: PaperApi, sha256: seq<byte> -> Digest, version: string,
                                  savePath: Path, fs: FileSystem, builds: seq<int32>)
    requires api.versionInfo(VersionUrl(version)) == Ok(builds) && builds != []
    ensures var o := Download(api, sha256, version, savePath, fs);
      && |o.requests| >= 2
      && o.requests[..2] == [VersionUrl(version), BuildUrl(version, builds[|builds| - 1])]
      && (api.buildInfo(o.requests[1]).Ok? ==>
            o.requests == o.requests[..2] + [DownloadUrl(version, builds[|builds| - 1], api.buildInfo(o.requests[1]).value.name)])
  {
  }

  /** Unless all three fetches succeed the call fails with the file system as
      it was; when they do, exactly the three URLs were requested and the
      rest is StoreAndVerify of the downloaded bytes and the published hash. */
  lemma StoreOnlyAfterAllFetches(api: PaperApi, sha256: seq<byte> -> Digest, version: string,
                                 savePath: Path, fs: FileSystem)
    ensures var o := Download(api, sha256, version, savePath, fs);
      && 1 <= |o.requests| <= 3 && o.requests[0] == VersionUrl(version)
      && (Fetched(api, version).None? ==>
            o.fs == fs && o.result.Err? && (o.result.error.RequestFailed? || o.result.error.NoBuildsFound?))
      && (Fetched(api, version).Some? ==>
            var f := Fetched(api, version).value;
            && o.requests == [VersionUrl(version), BuildUrl(version, f.build), DownloadUrl(version, f.build, f.app.name)]
            && (o.result, o.fs) == StoreAndVerify(fs, savePath, f.bytes, f.app.sha256, sha256))
  {
  }

  // ---------------------------------------------------------------------------
  // Storing and verifying

  /** The parent directories can be created and the path opened as a file. */
  predicate Storable(fs: FileSystem, p: Path) {
    p != [] && p !in fs.dirs && Ancestors(p[..|p| - 1]) !! fs.files.Keys
  }

  lemma AncestorsAreShorter(d: Path, q: Path)
    requires q in Ancestors(d)
    ensures 1 <= |q| <= |d|
  {
  }

  /** Where the file can be stored: the call succeeds exactly when the lower-case
      hex SHA-256 of the downloaded bytes equals the published string (case
      included); success returns the published string and keeps the file with
      exactly the downloaded bytes; failure removes the file, whatever it held
      before. The parent directories are created either way. */
  lemma VerifiedIffDigestMatches(fs: FileSystem, savePath: Path, bytes: seq<byte>, expected: string,
                                 sha256: seq<byte> -> Digest)
    requires Storable(fs, savePath)
    ensures var (result, fs') := StoreAndVerify(fs, savePath, bytes, expected, sha256);
      && (result.Ok? <==> expected == LowerHex(sha256(bytes)))
      && fs'.dirs == fs.dirs + Ancestors(savePath[..|savePath| - 1])
      && (result.Ok? ==> result.value == expected && fs'.files == fs.files[savePath := bytes])
      && (result.Err? ==> result.error == HashMismatch(expected, LowerHex(sha256(bytes)))
                           && fs'.files == fs.files - {savePath})
  {
    var d := savePath[..|savePath| - 1];
    if savePath in Ancestors(d) {
      AncestorsAreShorter(d, savePath);
    }
    assert ([] + bytes) == bytes;
  }

  /** The HTTP status of the download is never checked, so whatever body comes
      back (an error page included) is written to `save_path` and hashed; a
      body whose digest is not the published one ends in HashMismatch with
      the file removed, and no other file changes. */
  lemma MismatchedBodyIsRemoved(api: PaperApi, sha256: seq<byte> -> Digest, version: string,
                                savePath: Path, fs: FileSystem)
    requires Fetched(api, version).Some? && Storable(fs, savePath)
    requires LowerHex(sha256(Fetched(api, version).value.bytes)) != Fetched(api, version).value.app.sha256
    ensures var o := Download(api, sha256, version, savePath, fs);
      var f := Fetched(api, version).value;
      && o.result == Err(HashMismatch(f.app.sha256, LowerHex(sha256(f.bytes))))
      && o.fs.files == fs.files - {savePath}
  {
    var f := Fetched(api, version).value;
    StoreOnlyAfterAllFetches(api, sha256, version, savePath, fs);
    VerifiedIffDigestMatches(fs, savePath, f.bytes, f.app.sha256, sha256);
  }

  /** Where the file cannot be stored: an I/O error, and no file changes. */
  lemma UnstorableFailsWithoutWriting(fs: FileSystem, savePath: Path, bytes: seq<byte>, expected: string,
                                      sha256: seq<byte> -> Digest)
    requires !Storable(fs, savePath)
    ensures var (result, fs') := StoreAndVerify(fs, savePath, bytes, expected, sha256);
      result.Err? && result.error.IoFailed? && fs'.files == fs.files
  {
    if savePath != [] {
      var d := savePath[..|savePath| - 1];
      if savePath in Ancestors(d) {
        AncestorsAreShorter(d, savePath);
      }
    }
  }

  /** Only `save_path` is ever written, and it disappears only on a digest
      mismatch. */
  lemma OnlyMismatchRemoves(fs: FileSystem, savePath: Path, bytes: seq<byte>, expected: string,
                            sha256: seq<byte> -> Digest)
    ensures var (result, fs') := StoreAndVerify(fs, savePath, bytes, expected, sha256);
      && fs'.files - {savePath} == fs.files - {savePath}
      && (savePath in fs.files && savePath !in fs'.files ==> result.Err? && result.error.HashMismatch?)
      && (result.Err? && result.error.HashMismatch? ==> savePath !in fs'.files)
  {
    if Storable(fs, savePath) {
      VerifiedIffDigestMatches(fs, savePath, bytes, expected, sha256);
    } else {
      UnstorableFailsWithoutWriting(fs, savePath, bytes, expected, sha256);
    }
  }

  /** A hash that verifies is 64 lower-case hex digits, so a published hash in
      upper case, or of any other length, never verifies. */
  lemma VerifiedHashIsLowerHex(fs: FileSystem, savePath: Path, bytes: seq<byte>, expected: string,
                               sha256: seq<byte> -> Digest)
    ensures var (result, _) := StoreAndVerify(fs, savePath, bytes, expected, sha256);
      result.Ok? ==> result.value == expected && |expected| == 64
                     && forall i | 0 <= i < |expected| :: IsLowerHexChar(expected[i])
  {
  }

  /** The pipeline never makes a path both a file and a directory. */
  lemma StoreKeepsWellFormed(fs: FileSystem, savePath: Path, bytes: seq<byte>, expected: string,
                             sha256: seq<byte> -> Digest)
    requires WellFormed(fs)
    ensures WellFormed(StoreAndVerify(fs, savePath, bytes, expected, sha256).1)
  {
    if Storable(fs, savePath) {
      VerifiedIffDigestMatches(fs, savePath, bytes, expected, sha256);
      var d := savePath[..|savePath| - 1];
      if savePath in Ancestors(d) {
        AncestorsAreShorter(d, savePath);
      }
    } else {
      UnstorableFailsWithoutWriting(fs, savePath, bytes, expected, sha256);
    }
  }

  // ---------------------------------------------------------------------------
  // A complete run

  /** The body of a "not found" page: the bytes of "404". */
  const NotFoundPage: seq<byte> := [52, 48, 52]

  /** A vendor API that knows one version, 1.20.1, with builds [98, 99, 100];
      build 100 publishes `server-100.jar` with the given hash. For any other
      URL the server answers with an error page: the JSON requests then fail
      to decode, and the download yields the page's bytes, since the HTTP
      status is never checked. */
  function MockPaperApi(hash: string, jar: seq<byte>): PaperApi {
    PaperApi(
      url => if url == VersionUrl("1.20.1") then Ok([98, 99, 100]) else Err("error decoding response body"),
      url => if url == BuildUrl("1.20.1", 100) then Ok(Application("server-100.jar", hash)) else Err("error decoding response body"),
      url => if url == DownloadUrl("1.20.1", 100, "server-100.jar") then Ok(jar) else Ok(NotFoundPage))
  }

  /** Against that API, with the published hash equal to the digest of the
      bytes served: the three expected URLs are requested, the jar lands in
      minecraft_server/server.jar of an empty working tree and the published
      hash is returned. */
  lemma InstallScenario(sha256: seq<byte> -> Digest, jar: seq<byte>)
    ensures var hash := LowerHex(sha256(jar));
      Download(MockPaperApi(hash, jar), sha256, "1.20.1", ["minecraft_server", "server.jar"], FileSystem({}, map[]))
      == Outcome(Ok(hash),
                 FileSystem({["minecraft_server"]}, map[["minecraft_server", "server.jar"] := jar]),
                 [VersionUrl("1.20.1"), BuildUrl("1.20.1", 100), DownloadUrl("1.20.1", 100, "server-100.jar")])
  {
    var hash := LowerHex(sha256(jar));
    var api := MockPaperApi(hash, jar);
    var fs := FileSystem({}, map[]);
    var p: Path := ["minecraft_server", "server.jar"];
    MockFetched(hash, jar);
    StoreOnlyAfterAllFetches(api, sha256, "1.20.1", p, fs);
    MockStored(sha256, jar);
  }

  /** The build URL of the scenario, written out. */
  lemma ScenarioBuildUrl()
    ensures BuildUrl("1.20.1", 100) == "https://api.papermc.io/v2/projects/paper/versions/1.20.1/builds/100"
  {
    Decimal100();
  }

  lemma MockFetched(hash: string, jar: seq<byte>)
    ensures Fetched(MockPaperApi(hash, jar), "1.20.1") == Some(Fetch(100, Application("server-100.jar", hash), jar))
  {
    var api := MockPaperApi(hash, jar);
    assert api.versionInfo(VersionUrl("1.20.1")) == Ok([98, 99, 100]);
    var builds: seq<int32> := [98, 99, 100];
    assert builds[|builds| - 1] == 100;
    assert api.buildInfo(BuildUrl("1.20.1", 100)) == Ok(Application("server-100.jar", hash));
    assert api.download(DownloadUrl("1.20.1", 100, "server-100.jar")) == Ok(jar);
  }

  lemma MockStored(sha256: seq<byte> -> Digest, jar: seq<byte>)
    ensures var p: Path := ["minecraft_server", "server.jar"];
      StoreAndVerify(FileSystem({}, map[]), p, jar, LowerHex(sha256(jar)), sha256)
      == (Ok(LowerHex(sha256(jar))), FileSystem({["minecraft_server"]}, map[p := jar]))
  {
    var fs := FileSystem({}, map[]);
    var p: Path := ["minecraft_server", "server.jar"];
    var d := p[..1];
    assert d == ["minecraft_server"] && d[..1] == d;
    assert d in Ancestors(d);
    forall q | q in Ancestors(d)
      ensures q == d
    {
    }
    assert Ancestors(d) == {d};
    assert Storable(fs, p);
    VerifiedIffDigestMatches(fs, p, jar, LowerHex(sha256(jar)), sha256);
    var (result, fs') := StoreAndVerify(fs, p, jar, LowerHex(sha256(jar)), sha256);
    assert result == Ok(LowerHex(sha256(jar)));
    assert fs'.dirs == {["minecraft_server"]};
    assert fs'.files == map[p := jar];
  }
}
