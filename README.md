# MineHost Companion backend: process slot and PaperMC downloader

This project models two parts of the MineHost Companion backend, a small Rust
service that starts, stops and reports on one Minecraft server process and can
download a PaperMC server jar, and proves properties of the model.

1. **The process slot** (`backend/src/main.rs`). `AppState` holds three fields
   behind one mutex: the `is_minecraft_running` flag, the child's stdin handle
   and the monitor task's handle. The `/status`, `/start` and `/stop` handlers
   and the monitor task's cleanup each hold the lock for their whole run, so
   each is one atomic step here: `ServerSlot.AppState` is a class with fields
   `running`, `hasStdin` and `hasMonitor`, and its methods `Status`, `Start`,
   `Stop` and `MonitorExit` return the handler's message. They are proved
   against the pure step functions `StatusOf`, `StartStep`, `StopStep` and
   `MonitorExitStep` over the value `Slot`. The lemmas about those functions
   and about sequences of events (`Run`, `CountStarting`) state the behaviour.
   The outcome of `cmd.spawn()` and of writing `"stop\n"` to stdin are boolean
   parameters.

   The code keeps the invariant "stdin present iff monitor handle present, and
   stdin present implies running". It does NOT keep the stronger property
   "running iff both handles are present" that a reading of the `AppState`
   fields might suggest. After a successful graceful stop the
   flag stays set while both handles are gone, until the monitor task resets
   the slot (`GracefulStopKeepsRunning`). The model follows the code.
   `ReachableIffInv` shows that exactly three slot values can be reached.

2. **The PaperMC download pipeline** (`download_paper_server` in
   `backend/src/downloader.rs`). The steps are:
   - fetch the version's build list and pick its last entry, or fail on an
     empty list;
   - fetch that build's descriptor (file name and SHA-256);
   - download the jar;
   - create the parent directory and create or truncate the file;
   - write the bytes;
   - re-read the file in reads of at most 8192 bytes, feeding a SHA-256
     accumulator;
   - render the digest as lower-case hex and compare it, case-sensitively,
     with the published string;
   - return the published string, or remove the file and fail.

   The HTTP client is a value `PaperApi` of three functions from URL to
   result, so lemmas hold for every server behaviour. SHA-256 is a function
   parameter of type `seq<byte> -> Digest` (32 bytes). The file system is a
   value: a set of directories and a map from path to bytes. `Download` is the
   pipeline as a function. `DownloadPaperServer` is the same pipeline written
   step by step with early returns, and it is proved equal to `Download`. Its
   read loop is `HashFile`, and `ReadIntoBuffer` lets the operating system
   return any short count. In the source, `main.rs` declares no
   `mod downloader` and registers only `/status`, `/start` and `/stop`. The
   downloader is therefore modelled as a standalone function.

Files: `wrappers.dfy` (Option, Result), `server_slot.dfy` (module
`ServerSlot`), `text.dfy` (module `Text`: `byte`, `int32`, hex and decimal
rendering), `downloader.dfy` (modules `Downloader` and
`DownloaderProperties`).

Points where the code does less than a reader of its API might expect (the
model follows the code):
- The slot is not "running iff both handles are present", as explained above.
- The digest comparison is exact, so a published hash in upper case never
  verifies (`VerifiedHashIsLowerHex`).
- The HTTP status of a response is never checked. A non-success answer to
  either JSON request is decoded as JSON. A non-success answer to the
  download has its body stored as the jar and hashed, so it ends as a hash
  mismatch, not as a download error (`MismatchedBodyIsRemoved`).
- There is no install route and only one distribution channel: the PaperMC
  pipeline, which no route calls.
- Storing is not atomic: the destination file is truncated and written in
  place, and any earlier file at that path is lost on a mismatch.

## Model

| member | source | states |
|---|---|---|
| `ServerSlot.Inv` | backend/src/main.rs:18-22 | no contract of its own: defines the invariant over the three `AppState` fields (stdin present iff monitor present, stdin present implies running); kept by `StepPreservesInv`, `RunPreservesInv` and characterised by `ReachableIffInv` |
| `ServerSlot.StatusOf` | backend/src/main.rs:59-65 | no contract of its own: the `/status` reply for a slot; its properties are in `StatusReflectsFlag` and `MonitorExitResets` |
| `ServerSlot.StartStep` | backend/src/main.rs:68-106 | no contract of its own: new slot and message of `/start` given the spawn outcome; its properties are in `StartWhileRunning`, `StartFromStopped`, `StepPreservesInv` and `StartsSpawnAtMostOnce` |
| `ServerSlot.StopStep` | backend/src/main.rs:109-141 | no contract of its own: new slot and message of `/stop` given the write outcome; its properties are in `StopWhenStopped`, `StopWithStdin`, `StopWithoutStdin`, `StepPreservesInv` and `GracefulStopKeepsRunning` |
| `ServerSlot.MonitorExitStep` | backend/src/main.rs:154-157 | no contract of its own: the monitor's unconditional reset; its properties are in `MonitorExitResets` |
| `ServerSlot.AppState.constructor` | backend/src/main.rs:35-39 | the initial state is stopped, with no stdin and no monitor handle, and satisfies the invariant |
| `ServerSlot.AppState.Status` | backend/src/main.rs:59-65 | the reply is `StatusOf` the current slot and nothing is modified |
| `ServerSlot.AppState.Start` | backend/src/main.rs:68-106 | new fields and message are exactly `StartStep` of the old fields; the invariant is preserved |
| `ServerSlot.AppState.Stop` | backend/src/main.rs:109-141 | new fields and message are exactly `StopStep` of the old fields; every stop on a running slot leaves it satisfying the invariant |
| `ServerSlot.AppState.MonitorExit` | backend/src/main.rs:153-158 | the slot is reset to all-false whatever it was, which satisfies the invariant |
| `ServerSlot.StatusReflectsFlag` | backend/src/main.rs:59-65 | status is "running" iff the flag is set and "stopped" iff it is not; a status request leaves the slot unchanged |
| `ServerSlot.StartWhileRunning` | backend/src/main.rs:74-76 | start on a running slot replies "already_running" and changes no field |
| `ServerSlot.StartFromStopped` | backend/src/main.rs:85-105 | a failed spawn replies "error_spawning" with the slot untouched (stopped and empty under the invariant); a successful one sets all three fields and replies "starting" |
| `ServerSlot.StopWhenStopped` | backend/src/main.rs:115-117 | stop on a stopped slot replies "already_stopped" and changes nothing |
| `ServerSlot.StopWithStdin` | backend/src/main.rs:119-134 | with stdin present, stdin and monitor handle both leave the slot; a failed write also clears the flag ("error_stopping"), a successful one keeps it set ("stopping_gracefully") |
| `ServerSlot.StopWithoutStdin` | backend/src/main.rs:136-140 | running without stdin: flag and monitor cleared, reply "error_no_stdin" |
| `ServerSlot.MonitorExitResets` | backend/src/main.rs:154-157 | the monitor cleanup resets the slot unconditionally, so status then reports "stopped" |
| `ServerSlot.StepPreservesInv` | backend/src/main.rs:101-157 | every event preserves "stdin iff monitor, stdin implies running", and a stop on a running slot establishes it from any state |
| `ServerSlot.RunPreservesInv` | backend/src/main.rs:101-157 | the invariant holds after every serialised sequence of requests and monitor exits |
| `ServerSlot.ReachableIffInv` | backend/src/main.rs:35-157 | a slot value is reachable from the initial state iff it satisfies the invariant (both directions) |
| `ServerSlot.GracefulStopKeepsRunning` | backend/src/main.rs:132-140 | start then graceful stop leaves running=true with no handles, so status says "running"; a second stop then replies "error_no_stdin" and clears the flag |
| `ServerSlot.StartsSpawnAtMostOnce` | backend/src/main.rs:72-105 | any run of start requests yields exactly one "starting" if the slot was stopped and some spawn succeeds, and none otherwise |
| `Text.LowerHex` | backend/src/downloader.rs:111-112 | the digest's hex rendering has two characters per byte, each from [0-9a-f] |
| `Text.LowerHexRoundTrip` | backend/src/downloader.rs:111-112 | the hex rendering parses back to the digest bytes |
| `Text.LowerHexInjective` | backend/src/downloader.rs:111-112 | two digests render to the same string iff they are equal |
| `Text.NatToDecimal` | backend/src/downloader.rs:59-62 | a numeral is non-empty, all digits, and starts with '0' only for zero |
| `Text.NatToDecimalRoundTrip` | backend/src/downloader.rs:59-62 | the decimal numeral of n has value n |
| `Text.IntToDecimal` | backend/src/downloader.rs:59-62 | an `i32` numeral is digits, with a leading '-' exactly for negatives |
| `Text.IntToDecimalInjective` | backend/src/downloader.rs:59-62 | two build numbers render to the same numeral iff they are equal |
| `Downloader.VersionUrl` | backend/src/downloader.rs:40-43 | no contract of its own: the version URL template; its properties are in `UrlTemplatesCompose` and `VersionIsNotEscaped` |
| `Downloader.BuildUrl` | backend/src/downloader.rs:59-62 | no contract of its own: the build-info URL template; its properties are in `UrlTemplatesCompose`, `BuildUrlInjective` and `ScenarioBuildUrl` |
| `Downloader.DownloadUrl` | backend/src/downloader.rs:76-79 | no contract of its own: the download URL template; its properties are in `UrlTemplatesCompose` and `DownloadUrlInjective` |
| `Downloader.LatestBuild` | backend/src/downloader.rs:52-55 | no contract of its own: `builds.last()`; its properties are in `EmptyBuildListStopsEarly` and `RequestsFollowLatestBuild` |
| `Downloader.Parent` | backend/src/downloader.rs:85 | no contract of its own: `Path::parent` on a component list |
| `Downloader.MakeDirs` | backend/src/downloader.rs:86 | no contract of its own: `create_dir_all`, failing when a prefix is a file; its properties are in `VerifiedIffDigestMatches` and `UnstorableFailsWithoutWriting` |
| `Downloader.CreateOrTruncate` | backend/src/downloader.rs:90 | no contract of its own: `File::create`, failing on the empty path or a directory; its properties are in `VerifiedIffDigestMatches` and `UnstorableFailsWithoutWriting` |
| `Downloader.WriteAll` | backend/src/downloader.rs:92 | no contract of its own: `write_all` on the freshly truncated file; `VerifiedIffDigestMatches` states that the file then holds exactly the bytes |
| `Downloader.RemoveFile` | backend/src/downloader.rs:122 | no contract of its own: `remove_file`; its properties are in `OnlyMismatchRemoves` |
| `Downloader.StoreAndVerify` | backend/src/downloader.rs:85-125 | no contract of its own: directory, create, write, hash, compare and remove; its properties are in `VerifiedIffDigestMatches`, `UnstorableFailsWithoutWriting`, `OnlyMismatchRemoves`, `VerifiedHashIsLowerHex` and `StoreKeepsWellFormed` |
| `Downloader.Download` | backend/src/downloader.rs:32-126 | no contract of its own: the whole pipeline as a function of the API, SHA-256, version, path and file system; its properties are in `EmptyBuildListStopsEarly`, `RequestsFollowLatestBuild`, `StoreOnlyAfterAllFetches`, `MismatchedBodyIsRemoved` and `InstallScenario`, and `DownloadPaperServer` is proved equal to it |
| `Downloader.ReadIntoBuffer` | backend/src/downloader.rs:104-107 | a read returns at most 8192 bytes, never past the end of the file, and 0 exactly at the end |
| `Downloader.HashFile` | backend/src/downloader.rs:99-112 | the chunks fed to the hasher concatenate to exactly the file's bytes, in order, each of 1 to 8192 bytes; the result is the 64-character lower-case hex of SHA-256 of the file |
| `Downloader.DownloadPaperServer` | backend/src/downloader.rs:32-126 | the step-by-step pipeline returns exactly the result, final file system and request list of `Download` |
| `DownloaderProperties.UrlTemplatesCompose` | backend/src/downloader.rs:40-79 | the version URL is the fixed PaperMC prefix plus the version; the build URL is the version URL + "/builds/" + build; the download URL is the build URL + "/downloads/" + name |
| `DownloaderProperties.BuildUrlInjective` | backend/src/downloader.rs:59-62 | within one version, two builds have the same build URL iff they are equal |
| `DownloaderProperties.DownloadUrlInjective` | backend/src/downloader.rs:76-79 | within one version, the download URL determines both the build and the file name |
| `DownloaderProperties.VersionIsNotEscaped` | backend/src/downloader.rs:40-62 | the version is inserted unescaped, so the version "1.20.1/builds/100" gives the build URL of build 100 |
| `DownloaderProperties.EmptyBuildListStopsEarly` | backend/src/downloader.rs:52-55 | an empty build list fails with NoBuildsFound after the first request only, with the file system unchanged |
| `DownloaderProperties.RequestsFollowLatestBuild` | backend/src/downloader.rs:52-79 | the second request is the build URL of the last build in the list; the third is the download URL of the name that build's descriptor gives |
| `DownloaderProperties.StoreOnlyAfterAllFetches` | backend/src/downloader.rs:45-92 | if any fetch fails or the list is empty, the call fails with a request or no-builds error and the file system unchanged; otherwise exactly the three URLs are requested and the outcome is store-and-verify of the fetched bytes and hash |
| `DownloaderProperties.VerifiedIffDigestMatches` | backend/src/downloader.rs:85-125 | when the path is storable, the call succeeds iff the published hash equals the lower-case hex SHA-256 of the bytes; success returns that hash and the file holds exactly the bytes; otherwise HashMismatch and the file is gone; the parent directories exist either way |
| `DownloaderProperties.MismatchedBodyIsRemoved` | backend/src/downloader.rs:83-125 | when all fetches succeed and the path is storable, a downloaded body (an error page included, since the status is not checked) whose hex SHA-256 is not the published hash gives HashMismatch, and the file at the save path is gone with no other file changed |
| `DownloaderProperties.UnstorableFailsWithoutWriting` | backend/src/downloader.rs:85-90 | when the parent cannot be created or the path cannot be created as a file, the call fails with an I/O error and no file changes |
| `DownloaderProperties.OnlyMismatchRemoves` | backend/src/downloader.rs:114-125 | no file other than the save path changes, and the save path disappears iff the hash mismatched |
| `DownloaderProperties.VerifiedHashIsLowerHex` | backend/src/downloader.rs:111-116 | a hash that verifies is the returned value and has 64 lower-case hex digits, so an upper-case or wrong-length published hash never verifies |
| `DownloaderProperties.StoreKeepsWellFormed` | backend/src/downloader.rs:85-92 | storing never makes a path both a file and a directory |
| `DownloaderProperties.InstallScenario` | backend/src/downloader.rs:32-126 | with builds [98, 99, 100] for 1.20.1 and build 100 publishing server-100.jar and the digest of the served bytes, exactly the version, build-100 and download URLs are requested, minecraft_server/server.jar in an empty tree holds the bytes, and the hash is returned |
| `DownloaderProperties.ScenarioBuildUrl` | backend/src/downloader.rs:59-62 | the build URL of version 1.20.1, build 100 is exactly `https://api.papermc.io/v2/projects/paper/versions/1.20.1/builds/100` |

## Left out

- HTTP plumbing: the axum router, the TCP listener and the JSON response structs (main.rs:24-56). Each handler is its method's message string.
- Concurrency: the tokio `Mutex` and `Arc`, task spawning and `JoinHandle::abort`. Each handler and the monitor's cleanup is one atomic step.
- Stale monitor tasks are not modelled. Such a task belongs to an earlier process: its handle was dropped by a graceful stop, and it can reset the slot of a newer run. `MonitorExit` is an event that may occur at any time.
- Operating-system I/O: `cmd.spawn()`, `write_all(b"stop\n")` and `child.wait()` are booleans or events. The `expect` on `child.stdin.take()` is not modelled: stdin is always piped, so it cannot fail.
- Process handles are modelled by their presence only. Neither the child process nor its exit status appears in the model.
- The network client and JSON decoding: each request is a function from URL to `Ok(value)` or `Err(cause)`. The HTTP status is never checked. A non-success response is decoded as JSON, or, for the download, its body becomes the jar's bytes. `Err` stands for transport errors and for bodies that do not decode.
- The SHA-256 algorithm is a parameter. The model assumes that the streaming accumulator hashes the concatenation of what it was fed.
- File-system failures other than those the model's state decides are not modelled: permissions, a full disk, and failures of `write_all`, `File::open`, `read` or `remove_file`. The model's state decides these failures: `create_dir_all` fails when a prefix is a file, and `File::create` fails on the empty path or on a directory.
- `create_dir_all` is modelled as all-or-nothing. A partial creation before an error is not modelled.
- Paths are relative component lists; absolute paths and the root are not modelled.
- The file read back is the one just written. Changes to it by another process between the write and the read are not modelled.
- Error texts: the two local error messages are the constructors `NoBuildsFound` and `HashMismatch` rather than their Spanish strings. All `println!` logging is left out.
