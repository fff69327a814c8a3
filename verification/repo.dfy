/** The repository record, its derived locations, the backend registry and the local metadata
    source. */
module Repo {
  import opened Common

  /** A concrete backend as the selection loop sees it: the data type it reads from the
      metadata, whether its database is already on disk, and how its download (`GetLatestDB`)
      and load (`LoadDB`) calls turn out. */
  datatype Backend = Backend(dataType: string, hasDB: bool, downloadOk: bool, loadOk: bool)

  /** The backend registry for one repository: for every registered name, what its factory
      returns when handed the repository (a backend or the factory's error). */
  type Registry = map<string, Result<Backend, Error>>

  /** `NewBackend`: an unregistered name is a "no such backend" error, never a backend; a
      registered name yields whatever its factory yields. */
  function NewBackend(registry: Registry, name: string): (r: Result<Backend, Error>)
    ensures name in registry ==> r == registry[name]
    ensures name !in registry ==> r == Failure(NoSuchBackend(name))
    ensures r.Success? ==> name in registry
  {
    if name in registry then registry[name] else Failure(NoSuchBackend(name))
  }

  /** `Repository`; `backend` is the active backend (`nil` in Go is `None`). */
  datatype Repository = Repository(
    name: string,
    repoUrl: string,
    repoMdUrl: string,
    localRepoMdXml: string,
    cacheDir: string,
    backends: seq<string>,
    backend: Option<Backend>)

  const RepoMdSuffix: string := "/repodata/repomd.xml"
  const RepoMdFile: string := "repomd.xml"

  /** The remote metadata document lives at `<url>/repodata/repomd.xml`. */
  function RepoMdUrl(url: string): (u: string)
    ensures |u| == |url| + |RepoMdSuffix|
    ensures u[..|url|] == url && u[|url|..] == RepoMdSuffix
  {
    url + RepoMdSuffix
  }

  /** `filepath.Join(dir, file)` for an already clean directory and a plain file name:
      an empty directory contributes nothing, and exactly one separator joins the two. */
  function JoinPath(dir: string, file: string): (p: string)
    ensures dir == "" ==> p == file
    ensures dir != "" && dir[|dir| - 1] == '/' ==> |p| == |dir| + |file|
    ensures dir != "" && dir[|dir| - 1] != '/' ==> |p| == |dir| + 1 + |file| && p[|dir|] == '/'
    ensures dir != "" ==> p[..|dir|] == dir && p[|p| - |file|..] == file
  {
    if dir == "" then file
    else if dir[|dir| - 1] == '/' then dir + file
    else dir + "/" + file
  }

  /** A backend database is downloaded from `<repository url>/<location>`; the location can
      be read back from the URL, so distinct locations give distinct URLs. */
  function DownloadUrl(repoUrl: string, location: string): (u: string)
    ensures |u| == |repoUrl| + 1 + |location|
    ensures u[..|repoUrl|] == repoUrl && u[|repoUrl|] == '/' && u[|repoUrl| + 1..] == location
  {
    repoUrl + "/" + location
  }

  /** Distinct locations under one repository URL never share a download URL. */
  lemma DownloadUrlInjective(repoUrl: string, a: string, b: string)
    requires DownloadUrl(repoUrl, a) == DownloadUrl(repoUrl, b)
    ensures a == b
  {
  }

  /** The repository record `NewRepository` builds before any backend is set up: the two
      metadata locations derived from the URL and the cache directory, a copy of the backend
      names, and no active backend. */
  function Init(name: string, url: string, cacheDir: string, backends: seq<string>): (repo: Repository)
    ensures repo.name == name && repo.repoUrl == url && repo.cacheDir == cacheDir
    ensures repo.repoMdUrl == RepoMdUrl(url)
    ensures repo.localRepoMdXml == JoinPath(cacheDir, RepoMdFile)
    ensures repo.backends == backends
    ensures repo.backend.None?
  {
    Repository(name, url, RepoMdUrl(url), JoinPath(cacheDir, RepoMdFile), cacheDir, backends, None)
  }

  /** The cached metadata file as the file system presents it. */
  datatype LocalFile = Missing | Unreadable(err: Error) | Present(data: Bytes)

  /** `localMetadata`: a missing file reads as an empty document rather than an error; an
      unreadable one is an error; otherwise the whole content is returned. */
  function LocalMetadata(f: LocalFile): (r: Result<Bytes, Error>)
    ensures f.Missing? ==> r == Success([])
    ensures r.Failure? <==> f.Unreadable?
    ensures r.Failure? ==> r.error == f.err
    ensures f.Present? ==> r == Success(f.data)
  {
    match f
    case Missing => Success([])
    case Unreadable(e) => Failure(e)
    case Present(data) => Success(data)
  }
}
