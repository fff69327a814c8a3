# Backend selection for a YUM repository — a Dafny model

This project models how the `yum` package of lbpkr sets up a `Repository`.
It reads the repository metadata document (`repomd.xml`) into a map from data type to record
(`RepoMD`). Then it walks the configured backend names in priority order and activates the
first backend whose database can be brought up to date and loaded. There are two entry
points:

* **remote-checking** (`setupBackendFromRemote`): compares remote and local timestamps and
  downloads a stale database. After every successful download it rewrites the local metadata
  cache.
* **local-only** (`setupBackendFromLocal`): trusts whatever the local cache describes and only
  loads.

I/O is replaced by given outcomes (the `Env` datatype):

* the result of the HTTP GET;
* the state of the cached `repomd.xml` file;
* the XML decoder, as a function from bytes to the entries it puts in the `Data` field of
  `checkRepoMD`'s `xmlTree`;
* whether rewriting the cache file succeeds;
* whether creating the cache directory fails.

Each backend is a record of what its calls do (`Backend`: data type, `HasDB`, `GetLatestDB`
outcome, `LoadDB` outcome). The registry is an immutable map from name to factory outcome.
Every call with an effect (`NewBackend`, `GetLatestDB`, the cache write, `LoadDB`) is recorded
as an `Event`, so the contracts can say which downloads, cache writes and loads happen, and in
which order. The queries `YumDataType` and `HasDB` have no effect and are not recorded; their
answers are fields of `Backend`.

Modules:

* `Common`: bytes, `Option`/`Result`, the error kinds.
* `Timestamp`: the part of Go's `time` used here, i.e. `time.Unix`, the zero time and `After`.
* `Metadata`: `checkRepoMD` and `RepoMD`.
* `Repo`: `Repository`, `NewBackend`, the derived URLs and paths, and `localMetadata`.
* `Selection`: one candidate step (`Try`), the loop (`SelectFrom`) and both setup modes as pure
  functions.
* `Properties`: lemmas about whole runs.
* `Setup`: the loops written imperatively, with the Go functions' `continue`s and `break`,
  proved equal to the functions; also `NewRepository`.
* `Scenarios`: concrete runs.

Two consequences of the code are worth stating:

* **A data type missing from the local metadata forces a download.** The lookup at
  repository.go:161 yields the zero `RepoMD`, whose timestamp is Go's zero time (year 1); the
  comment at repository.go:163 says the download happens in any case. So any remote
  timestamp at least one nanosecond into year 1 is `After` it
  (`Properties.MissingLocalRecordForcesDownload`).
* **The cache is rewritten before `LoadDB`.** The local `repomd.xml` is overwritten right after
  any successful download (repository.go:179). A candidate that then fails to load has still
  replaced the cache, so the cache can change in a run that fails
  (`Properties.CacheWrittenEvenIfLoadFails`, `Scenarios.CacheRewrittenByFailedRun`).

An observation about the source that was not executed: the `Data` field of `xmlTree`
(repository.go:308) has no struct tag. `encoding/xml` matches element names against field names
case-sensitively, so it fills `Data` from `<Data>` children, not from the lower-case `<data>`
elements of a conventional `repomd.xml`. On such a document the entry list would come back
empty, the map would be empty, and every candidate would be skipped
(`Properties.NothingOfferedFails` describes that run). The model takes the decoder as a
parameter and therefore does not decide which elements it reads.

## Model

| member | source | states |
|---|---|---|
| Timestamp.Unix | yum/repository.go:330 | `time.Unix(sec, nsec)` yields a normalized instant (nanoseconds in [0, 1e9)) that denotes exactly `sec` seconds plus `nsec` nanoseconds |
| Timestamp.AfterIsLater | yum/repository.go:166 | `After` on normalized instants holds exactly when the first is later on the nanosecond time line |
| Timestamp.FromSeconds | yum/repository.go:326-330 | the seconds/nanoseconds split gives a normalized instant whose seconds are the floor of the timestamp and whose nanosecond count is the timestamp times 1e9, floored (truncation, not rounding) |
| Timestamp.FromSecondsHalf | yum/repository.go:326-327 | 1000.5 seconds decodes to second 1000 plus 500000000 ns |
| Timestamp.FromSecondsMonotone | yum/repository.go:326-330 | decoding preserves order: a smaller timestamp never decodes after a larger one, and its nanosecond count is never larger |
| Timestamp.FromSecondsAfterZero | yum/repository.go:161-166 | a timestamp decodes after Go's zero time (the timestamp of the zero `RepoMD`) exactly when it is at least one nanosecond past it |
| Metadata.Record | yum/repository.go:328-332 | a record keeps the entry's checksum and `href` unchanged and its timestamp decoded as above |
| Metadata.BuildIndex | yum/repository.go:324-335 | the map has exactly one key per distinct entry type, and the record under a type is built from the last entry of that type |
| Metadata.EveryTypeHasItsLastRecord | yum/repository.go:325-334 | every key of the map is backed by an entry of that type which is the last of its type and whose record is the stored one |
| Metadata.CheckRepoMd | yum/repository.go:300-336 | zero-length input gives the empty map and no error; non-empty input that fails to decode gives a parse error; decoded input gives the map whose keys are the entry types and whose record for each type is built from the last entry of that type, checksum and `href` kept |
| Metadata.LocalRecord | yum/repository.go:161-164 | a lookup of a missing type yields the zero `RepoMD` (empty checksum and location, Go's zero time); a present type yields its record |
| Repo.NewBackend | yum/repository.go:22-28 | a registered name yields exactly its factory's result, error or backend; an unregistered name gives a "no such backend" error and never a backend |
| Repo.RepoMdUrl | yum/repository.go:74 | the metadata URL is the repository URL followed by `/repodata/repomd.xml` |
| Repo.JoinPath | yum/repository.go:75 | the cache file path starts with the cache directory, ends with `repomd.xml`, and has exactly one separator between them |
| Repo.DownloadUrl | yum/repository.go:168 | the download URL is the repository URL, a `/`, then the location, and the location can be read back from it |
| Repo.DownloadUrlInjective | yum/repository.go:168 | two locations under one repository URL share a download URL only if they are equal |
| Repo.Init | yum/repository.go:70-79 | a new repository keeps name, URL and cache directory, derives both metadata locations, copies the backend names and has no active backend |
| Repo.LocalMetadata | yum/repository.go:281-297 | a missing cache file reads as an empty document and not an error; an unreadable file is an error carrying its cause; otherwise the full content is returned |
| Selection.Try | yum/repository.go:145-200 | one candidate: it is always instantiated first; it is skipped with no further call iff it is unregistered or its data type is not offered; an offered candidate is chosen, as the registered backend, iff its load succeeds and either the mode is local-only, or its database is current, or both its download and the cache write succeed; an offered candidate in local mode or with a current database makes exactly one further call, its `LoadDB`, whether or not that load succeeds; in local mode it makes no download or cache write; in remote mode every cache write follows a successful download and stores the remote document at the cache path; every load follows the instantiation or a successful cache write |
| Selection.Refresh | yum/repository.go:166-197 | the update branch of a stale candidate: `GetLatestDB` is always the first call after the instantiation; a failed download ends the candidate there; a successful one is always followed by the cache write of the remote document at the cache path, a failed write ends the candidate there, and a successful write is always followed by `LoadDB`; the candidate is chosen, as itself, exactly when the download, the cache write and the load all succeed, and is never reported as skipped |
| Selection.SelectFromSpec | yum/repository.go:144-201 | the loop's winner is the first position whose candidate loads; the calls made are exactly those of the positions up to the winner; the active backend is the winner, or nil once a tried candidate was dropped, or untouched when all were skipped |
| Selection.PrepareRemote | yum/repository.go:124-142 | the remote fetch, remote decode, local read and local decode are tried in that order and each phase's failure is the result, with that phase's error; success carries the full remote document, the decoded remote map and the decoded local map |
| Selection.PrepareLocal | yum/repository.go:215-223 | only the local document is read and decoded; a read failure or a decode failure is the result with its error; success carries the decoded local map; a missing cache file gives an empty map |
| Selection.Conclude | yum/repository.go:144-209 | the run fails with "No valid backend found" iff no candidate loads; otherwise the active backend is the first loading candidate's and the calls are exactly those of the candidates up to it; on failure the calls are those of every candidate and the active backend is nil if some candidate was dropped, else unchanged; nothing else in the repository changes |
| Selection.SyncRemote | yum/repository.go:119-210 | a metadata error is returned before any backend is instantiated, with the repository untouched; otherwise the run is the candidate loop over the remote and local maps |
| Selection.SyncLocal | yum/repository.go:212-263 | as the remote mode, from the local metadata only |
| Properties.TriedInOrder | yum/repository.go:144-200 | candidates are instantiated strictly in configured order: exactly the names up to and including the winner, or all names when none wins, so later names are never instantiated |
| Properties.LocalModeNeverDownloads | yum/repository.go:226-253 | a local-only run never calls `GetLatestDB` and never writes the cache |
| Properties.RemoteWritesFollowDownloads | yum/repository.go:166-190 | in a remote run every cache write stores the full remote document at `LocalRepoMdXml` right after a successful download, and every load follows the instantiation or a successful cache write |
| Properties.DownloadIffStale | yum/repository.go:161-170 | an offered candidate is downloaded iff it has no database or the remote timestamp is strictly after the local one, and only from `RepoUrl + "/" + Location` |
| Properties.EqualTimestampsNoDownload | yum/repository.go:166 | with a database on disk and equal timestamps there is no download and no cache write |
| Properties.MissingLocalRecordForcesDownload | yum/repository.go:161-166 | a data type missing locally is compared with the zero time, so any remote timestamp at least one nanosecond into year 1 forces a download |
| Properties.CacheWrittenEvenIfLoadFails | yum/repository.go:178-196 | a stale candidate whose download and cache write succeed but whose load fails has already rewritten the cache with the remote document, and is dropped |
| Properties.NothingOfferedFails | yum/repository.go:144-206 | when no candidate is registered with an offered data type, the run fails with "No valid backend found", leaves the repository as it was, instantiates every name and makes no download |
| Setup.TryCandidate | yum/repository.go:145-200 | the loop body with its `continue`s computes exactly the candidate step `Try` |
| Setup.CandidateLoop | yum/repository.go:144-209 | the `for`/`continue`/`break` loop over the names computes exactly the run `Conclude` describes |
| Setup.SetupBackendFromRemote | yum/repository.go:119-210 | the Go-shaped remote setup computes exactly `SyncRemote`; on success the active backend is set and loaded |
| Setup.SetupBackendFromLocal | yum/repository.go:212-263 | the Go-shaped local setup computes exactly `SyncLocal` and makes no download or cache write |
| Setup.NewRepository | yum/repository.go:68-101 | a directory-creation failure is returned before anything else; without setup the fresh repository is returned; a returned repository keeps the derived fields and, after setup, has a loaded active backend; with setup the result and the calls are exactly those of the remote or the local setup run on the fresh repository, chosen by `checkForUpdates`, its error becoming the constructor's error; without update checking no download happens |
| Setup.ActiveIffSucceeded | yum/repository.go:157-209 | starting from no active backend, a setup run ends with an active backend exactly when it returns no error |
| Scenarios.NewerRemoteSelectsFirst | yum/repository.go:144-200 | backends sqlite then flat, remote sqlite data newer than the local data: sqlite is downloaded, the cache is rewritten and sqlite is loaded and active; flat is never tried |
| Scenarios.FailedDownloadFallsBack | yum/repository.go:170-177 | the first candidate's download fails: it is dropped and the second candidate becomes active |
| Scenarios.CacheRewrittenByFailedRun | yum/repository.go:178-197 | a sole candidate that downloads but fails to load leaves no active backend and a run error, with the cache already rewritten |
| Scenarios.LocalWithoutCacheFails | yum/repository.go:226-236 | local-only mode with no cache file skips every candidate and fails without any download |
| Scenarios.UnreadableCacheFails | yum/repository.go:215-218 | local-only mode whose cache file cannot be read returns the file error before any backend is instantiated, leaving the repository untouched |

## Left out

- `remoteMetadata` (HTTP GET) is left out as network I/O. Its outcome is the given `Env.remote`. Go's `http.Get` does not treat a non-2xx status as an error; whatever body comes back is in that outcome.
- `os.MkdirAll`, `ioutil.WriteFile` and the file open/read in `localMetadata` are file-system I/O. Their outcomes are given (`Env.mkdirError`, `Env.cacheWriteOk`, `Env.localFile`). The existence check and the read-as-bytes logic of `localMetadata` are modelled.
- `Env.cacheWriteOk` is one outcome per run: a cache write that fails for one candidate and succeeds for a later one in the same run is not modelled.
- A backend's outcomes (`HasDB`, download, load) are fixed per registered name for the run. The same name listed twice sees the same outcomes both times, although in Go the second instance could see a database the first one downloaded.
- `xml.Unmarshal` is a foreign library and enters as a function from bytes to decoded entries or an error message. Which XML elements it maps to the untagged `Data` field is therefore not modelled.
- Floating point: the decoded timestamp is taken as an exact real, so float64 parsing and rounding in `(ts - sec) * 1e9` are not modelled. The int64 range of the converted seconds is not modelled either.
- `Repo.JoinPath`: models `filepath.Join` only for an already clean directory. The lexical cleaning of `.`, `..` and repeated separators is not modelled.
- `FindLatestMatchingName`, `FindLatestMatchingRequire` and `GetPackages` on `Repository` only forward to the active backend, which belongs to the concrete backends outside this model. In Go they panic on a nil backend.
- The logger and the global `g_backends` map are left out. The registry is passed in as an immutable map.
- Concrete backends (their database formats and package queries) are left out; only their outcomes are modelled.
