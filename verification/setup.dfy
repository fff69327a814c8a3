/** The two setup entry points written as the loops they are, and repository construction. */
module Setup {
  import opened Common
  import opened Timestamp
  import opened Metadata
  import opened Repo
  import opened Selection
  import opened Properties

  /** One candidate, as the body of the Go loop handles it: every early exit is a `continue`
      (skipped, or dropped after becoming the active backend) and the fall-through is the
      `break` of a loaded candidate. */
  method TryCandidate(ctx: Ctx, bname: string) returns (a: Attempt)
    ensures a == Try(ctx, bname)
  {
    var events := [Instantiate(bname)];
    var ba := NewBackend(ctx.registry, bname);
    if ba.Failure? {
      return Attempt(events, Unavailable);
    }
    var b := ba.value;
    if b.dataType !in Offered(ctx.mode) {
      return Attempt(events, Unavailable);
    }
    if ctx.mode.Remote? {
      var rrepomd := ctx.mode.remoteMd[b.dataType];
      var lrepomd := LocalRecord(ctx.mode.localMd, b.dataType);
      if !b.hasDB || After(rrepomd.timestamp, lrepomd.timestamp) {
        var url := DownloadUrl(ctx.repoUrl, rrepomd.location);
        events := events + [Download(bname, url, b.downloadOk)];
        if !b.downloadOk {
          return Attempt(events, Dropped);
        }
        events := events + [WriteCache(ctx.cachePath, ctx.mode.remoteData, ctx.mode.cacheWriteOk)];
        if !ctx.mode.cacheWriteOk {
          return Attempt(events, Dropped);
        }
      }
    }
    events := events + [Load(bname, b.loadOk)];
    if !b.loadOk {
      return Attempt(events, Dropped);
    }
    return Attempt(events, Chosen(b));
  }

  /** The candidate loop shared by both entry points: the repository's active backend is set
      when a candidate passes its availability checks and reset to nil when it then fails;
      the first candidate that loads ends the loop; none loading is "No valid backend found".
      It computes exactly the run `Conclude` describes. */
  method CandidateLoop(repo: Repository, mode: Mode, registry: Registry) returns (r: Sync)
    ensures r == Conclude(repo, mode, registry)
  {
    ghost var ctx := CtxOf(repo, mode, registry);
    ghost var atts := Attempts(ctx);
    var cur := repo;
    // Go's local `backend` is set and, for a dropped candidate, reset within one iteration
    // (`TryCandidate` makes that iteration atomic), so it is nil at every loop head and
    // non-nil only after the `break` of a loaded candidate.
    var backend: Option<Backend> := None;
    var events: seq<Event> := [];
    var i := 0;
    while i < |repo.backends|
      invariant 0 <= i <= |repo.backends|
      invariant backend.None?
      invariant cur == repo.(backend := cur.backend)
      invariant Run(ctx, repo.backend) == SelectFrom(atts, i, cur.backend, events)
    {
      var a := TryCandidate(Ctx(mode, registry, repo.repoUrl, repo.localRepoMdXml, repo.backends), repo.backends[i]);
      assert a == atts[i];
      events := events + a.events;
      match a.verdict {
        case Unavailable =>
        case Dropped =>
          cur := cur.(backend := None);
        case Chosen(b) =>
          backend := Some(b);
          cur := cur.(backend := backend);
          break;
      }
      i := i + 1;
    }
    if backend.None? {
      return Sync(cur, events, Some(NoValidBackend));
    }
    return Sync(cur, events, None);
  }

  /** `setupBackendFromRemote`: fetch and decode the remote and the local metadata, returning
      the first failure before any candidate is tried, then run the candidate loop. */
  method SetupBackendFromRemote(repo: Repository, env: Env) returns (r: Sync)
    ensures r == SyncRemote(repo, env)
    ensures r.err.None? ==> r.repo.backend.Some? && r.repo.backend.value.loadOk
  {
    if env.remote.Failure? {
      return Sync(repo, [], Some(env.remote.error));
    }
    var remotedata := env.remote.value;
    var remotemd := CheckRepoMd(remotedata, env.unmarshal);
    if remotemd.Failure? {
      return Sync(repo, [], Some(remotemd.error));
    }
    var localdata := LocalMetadata(env.localFile);
    if localdata.Failure? {
      return Sync(repo, [], Some(localdata.error));
    }
    var localmd := CheckRepoMd(localdata.value, env.unmarshal);
    if localmd.Failure? {
      return Sync(repo, [], Some(localmd.error));
    }
    r := CandidateLoop(repo, Remote(remotedata, remotemd.value, localmd.value, env.cacheWriteOk), env.registry);
  }

  /** `setupBackendFromLocal`: decode the local metadata only, then run the candidate loop with
      no staleness test, no download and no cache write. */
  method SetupBackendFromLocal(repo: Repository, env: Env) returns (r: Sync)
    ensures r == SyncLocal(repo, env)
    ensures NoNetwork(r.events)
  {
    LocalModeNeverDownloads(repo, env);
    var data := LocalMetadata(env.localFile);
    if data.Failure? {
      return Sync(repo, [], Some(data.error));
    }
    var md := CheckRepoMd(data.value, env.unmarshal);
    if md.Failure? {
      return Sync(repo, [], Some(md.error));
    }
    r := CandidateLoop(repo, Local(md.value), env.registry);
  }

  /** What `NewRepository` hands back: the repository or the error, and the calls made. */
  datatype Built = Built(repo: Result<Repository, Error>, events: seq<Event>)

  /** `NewRepository`: derive the locations, create the cache directory, then set up a backend
      when asked, checking the remote metadata for updates or trusting the local cache. */
  function NewRepository(name: string, url: string, cacheDir: string, backends: seq<string>,
                         setupBackend: bool, checkForUpdates: bool, env: Env): (b: Built)
    ensures env.mkdirError.Some? ==> b == Built(Failure(env.mkdirError.value), [])
    ensures env.mkdirError.None? && !setupBackend ==> b == Built(Success(Init(name, url, cacheDir, backends)), [])
    ensures b.repo.Success? ==>
              b.repo.value == Init(name, url, cacheDir, backends).(backend := b.repo.value.backend)
    ensures b.repo.Success? && setupBackend ==>
              b.repo.value.backend.Some? && b.repo.value.backend.value.loadOk
    ensures env.mkdirError.None? && setupBackend ==>
              var r := if checkForUpdates then SyncRemote(Init(name, url, cacheDir, backends), env)
                       else SyncLocal(Init(name, url, cacheDir, backends), env);
              && b.events == r.events
              && b.repo == (if r.err.Some? then Failure(r.err.value) else Success(r.repo))
    ensures !checkForUpdates ==> NoNetwork(b.events)
  {
    if env.mkdirError.Some? then Built(Failure(env.mkdirError.value), [])
    else
      var repo := Init(name, url, cacheDir, backends);
      if !setupBackend then Built(Success(repo), [])
      else
        LocalModeNeverDownloads(repo, env);
        var r := if checkForUpdates then SyncRemote(repo, env) else SyncLocal(repo, env);
        if r.err.Some? then Built(Failure(r.err.value), r.events)
        else Built(Success(r.repo), r.events)
  }

  /** Starting from no active backend, as `NewRepository` does, a setup run leaves an active
      backend exactly when it succeeds: the loop's local `backend` and the repository's
      `Backend` are nil together. */
  lemma ActiveIffSucceeded(repo: Repository, env: Env)
    requires repo.backend.None?
    ensures SyncRemote(repo, env).err.None? <==> SyncRemote(repo, env).repo.backend.Some?
    ensures SyncLocal(repo, env).err.None? <==> SyncLocal(repo, env).repo.backend.Some?
  {
  }
}
