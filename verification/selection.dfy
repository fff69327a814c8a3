/** The backend-selection protocol: one step per candidate name (instantiate, look up its data
    type, decide staleness, download, rewrite the metadata cache, load) and the loop that tries
    candidates in configured order until one loads. Both entry modes share the loop; they
    differ in the step. */
module Selection {
  import opened Common
  import opened Timestamp
  import opened Metadata
  import opened Repo

  /** The externally visible calls made while candidates are tried, with their outcome. */
  datatype Event =
    | Instantiate(name: string)                        // NewBackend(name, repo)
    | Download(name: string, url: string, ok: bool)    // Backend.GetLatestDB(url)
    | WriteCache(path: string, data: Bytes, ok: bool)  // ioutil.WriteFile of the metadata cache
    | Load(name: string, ok: bool)                     // Backend.LoadDB()

  /** What the loop works from. Remote-checking mode has the remote document and both decoded
      maps, and knows whether rewriting the cache file succeeds; local-only mode has the local
      map alone. */
  datatype Mode =
    | Remote(remoteData: Bytes, remoteMd: Index, localMd: Index, cacheWriteOk: bool)
    | Local(localMd: Index)

  /** The map whose keys decide whether a candidate is available. */
  function Offered(mode: Mode): Index {
    if mode.Remote? then mode.remoteMd else mode.localMd
  }

  /** Everything a run of the loop reads; the repository contributes its URL, its cache file
      and its ordered candidate names. */
  datatype Ctx = Ctx(mode: Mode, registry: Registry, repoUrl: string, cachePath: string, names: seq<string>)

  function CtxOf(repo: Repository, mode: Mode, registry: Registry): Ctx {
    Ctx(mode, registry, repo.repoUrl, repo.localRepoMdXml, repo.backends)
  }

  /** How one candidate ends: skipped before it became the active backend, made active and then
      dropped again (the active backend reset to nil), or loaded. */
  datatype Verdict = Unavailable | Dropped | Chosen(backend: Backend)

  datatype Attempt = Attempt(events: seq<Event>, verdict: Verdict)

  /** The staleness test: no database on disk, or a remote timestamp strictly after the local one. */
  predicate NeedsUpdate(b: Backend, remote: RepoMd, local: RepoMd) {
    !b.hasDB || After(remote.timestamp, local.timestamp)
  }

  /** No call reaches the network or writes the cache. */
  predicate NoNetwork(evs: seq<Event>) {
    forall k | 0 <= k < |evs| :: !evs[k].Download? && !evs[k].WriteCache?
  }

  /** Every cache write comes right after a successful download and stores `data` at `path`. */
  predicate WritesFollowDownloads(evs: seq<Event>, path: string, data: Bytes) {
    forall k | 0 <= k < |evs| && evs[k].WriteCache? ::
      k > 0 && evs[k - 1].Download? && evs[k - 1].ok && evs[k].path == path && evs[k].data == data
  }

  /** Every load comes right after the instantiation or right after a successful cache write. */
  predicate LoadsFollowSetup(evs: seq<Event>) {
    forall k | 0 <= k < |evs| && evs[k].Load? ::
      k > 0 && (evs[k - 1].Instantiate? || (evs[k - 1].WriteCache? && evs[k - 1].ok))
  }

  /** The `LoadDB` call that ends every candidate reaching it. */
  function LoadStep(name: string, b: Backend, before: seq<Event>): Attempt {
    if b.loadOk then Attempt(before + [Load(name, true)], Chosen(b))
    else Attempt(before + [Load(name, false)], Dropped)
  }

  /** The update branch of a stale candidate `b` in remote-checking mode: `GetLatestDB` from
      `url`, then the rewrite of the cache file at `path` with the remote document `data`, then
      `LoadDB`; a failure of any of the three drops the candidate. */
  function Refresh(name: string, b: Backend, url: string, path: string, data: Bytes, writeOk: bool): (a: Attempt)
    ensures |a.events| >= 2 && a.events[0] == Instantiate(name) && a.events[1] == Download(name, url, b.downloadOk)
    ensures forall k | 1 <= k < |a.events| :: !a.events[k].Instantiate?
    ensures a.verdict.Chosen? <==> b.downloadOk && writeOk && b.loadOk
    ensures !a.verdict.Unavailable?
    ensures a.verdict.Chosen? ==> a.verdict.backend == b && a.events[|a.events| - 1] == Load(name, true)
    ensures !b.downloadOk ==> |a.events| == 2
    ensures b.downloadOk ==> |a.events| >= 3 && a.events[2] == WriteCache(path, data, writeOk)
    ensures b.downloadOk && !writeOk ==> |a.events| == 3
    ensures b.downloadOk && writeOk ==> |a.events| == 4 && a.events[3] == Load(name, b.loadOk)
    ensures WritesFollowDownloads(a.events, path, data)
    ensures LoadsFollowSetup(a.events)
  {
    if !b.downloadOk then
      Attempt([Instantiate(name), Download(name, url, false)], Dropped)
    else if !writeOk then
      Attempt([Instantiate(name), Download(name, url, true), WriteCache(path, data, false)], Dropped)
    else
      LoadStep(name, b, [Instantiate(name), Download(name, url, true), WriteCache(path, data, true)])
  }

  /** In remote-checking mode, `b`'s data type is offered and its database is current, so no
      download is needed before the load. */
  predicate IsCurrent(mode: Mode, b: Backend) {
    && mode.Remote?
    && b.dataType in mode.remoteMd
    && !NeedsUpdate(b, mode.remoteMd[b.dataType], LocalRecord(mode.localMd, b.dataType))
  }

  /** One iteration of the candidate loop for the name `name`. */
  function Try(ctx: Ctx, name: string): (a: Attempt)
    ensures |a.events| >= 1 && a.events[0] == Instantiate(name)
    ensures forall k | 1 <= k < |a.events| :: !a.events[k].Instantiate?
    ensures a.verdict.Unavailable? <==>
              NewBackend(ctx.registry, name).Failure?
              || NewBackend(ctx.registry, name).value.dataType !in Offered(ctx.mode)
    ensures a.verdict.Unavailable? ==> a.events == [Instantiate(name)]
    ensures NewBackend(ctx.registry, name).Success? ==>
              var b := NewBackend(ctx.registry, name).value;
              b.dataType in Offered(ctx.mode) ==>
                (a.verdict.Chosen? <==>
                   && b.loadOk
                   && (ctx.mode.Local? || IsCurrent(ctx.mode, b) || (b.downloadOk && ctx.mode.cacheWriteOk)))
    ensures NewBackend(ctx.registry, name).Success? ==>
              var b := NewBackend(ctx.registry, name).value;
              && b.dataType in Offered(ctx.mode)
              && (ctx.mode.Local? || IsCurrent(ctx.mode, b)) ==>
                a.events == [Instantiate(name), Load(name, b.loadOk)]
    ensures a.verdict.Chosen? ==>
              && NewBackend(ctx.registry, name) == Success(a.verdict.backend)
              && a.verdict.backend.loadOk
              && a.events[|a.events| - 1] == Load(name, true)
    ensures ctx.mode.Local? ==> NoNetwork(a.events)
    ensures ctx.mode.Remote? ==> WritesFollowDownloads(a.events, ctx.cachePath, ctx.mode.remoteData)
    ensures LoadsFollowSetup(a.events)
  {
    match NewBackend(ctx.registry, name)
    case Failure(_) => Attempt([Instantiate(name)], Unavailable)
    case Success(b) =>
      if b.dataType !in Offered(ctx.mode) then Attempt([Instantiate(name)], Unavailable)
      else
        match ctx.mode
        case Local(_) => LoadStep(name, b, [Instantiate(name)])
        case Remote(data, remoteMd, localMd, writeOk) =>
          var remote := remoteMd[b.dataType];
          if !NeedsUpdate(b, remote, LocalRecord(localMd, b.dataType)) then
            LoadStep(name, b, [Instantiate(name)])
          else
            Refresh(name, b, DownloadUrl(ctx.repoUrl, remote.location), ctx.cachePath, data, writeOk)
  }

  /** The attempt each candidate name would make, in configured order. */
  function Attempts(ctx: Ctx): (atts: seq<Attempt>)
    ensures |atts| == |ctx.names|
    ensures forall i | 0 <= i < |atts| :: atts[i] == Try(ctx, ctx.names[i])
  {
    seq(|ctx.names|, i requires 0 <= i < |ctx.names| => Try(ctx, ctx.names[i]))
  }

  /** Candidate `i` loads when it is tried. */
  predicate Wins(atts: seq<Attempt>, i: int)
    requires 0 <= i < |atts|
  {
    atts[i].verdict.Chosen?
  }

  /** Some candidate in [lo, hi) became active and was then dropped. */
  predicate AnyDropped(atts: seq<Attempt>, lo: int, hi: int)
    requires 0 <= lo <= hi <= |atts|
  {
    exists j | lo <= j < hi :: atts[j].verdict.Dropped?
  }

  /** The calls made by candidates lo, ..., hi-1, in that order. */
  function Trace(atts: seq<Attempt>, lo: int, hi: int): seq<Event>
    requires 0 <= lo <= hi <= |atts|
    decreases hi - lo
  {
    if lo == hi then [] else atts[lo].events + Trace(atts, lo + 1, hi)
  }

  /** Where a run of the loop ends: the winning position, the repository's active backend and
      the calls made. */
  datatype RunResult = RunResult(winner: Option<nat>, active: Option<Backend>, events: seq<Event>)

  /** The loop from position `i` on, with `active` the repository's current backend and `acc`
      the calls made so far: a chosen candidate ends it, a dropped one resets the active
      backend to nil, a skipped one leaves it alone. */
  function SelectFrom(atts: seq<Attempt>, i: int, active: Option<Backend>, acc: seq<Event>): RunResult
    requires 0 <= i <= |atts|
    decreases |atts| - i
  {
    if i == |atts| then RunResult(None, active, acc)
    else
      match atts[i].verdict
      case Chosen(b) => RunResult(Some(i), Some(b), acc + atts[i].events)
      case Dropped => SelectFrom(atts, i + 1, None, acc + atts[i].events)
      case Unavailable => SelectFrom(atts, i + 1, active, acc + atts[i].events)
  }

  /** The loop's outcome, stated without the loop: the winner is the first position whose
      candidate loads; the calls are those of every position up to it; the active backend is
      the winner's, or nil once some tried candidate was dropped, or untouched when every
      candidate was skipped. */
  lemma {:induction false} SelectFromSpec(atts: seq<Attempt>, i: int, active: Option<Backend>, acc: seq<Event>)
    requires 0 <= i <= |atts|
    decreases |atts| - i
    ensures var s := SelectFrom(atts, i, active, acc);
      s.winner.Some? ==>
        && i <= s.winner.value < |atts|
        && Wins(atts, s.winner.value)
        && (forall j | i <= j < s.winner.value :: !Wins(atts, j))
        && s.active == Some(atts[s.winner.value].verdict.backend)
        && s.events == acc + Trace(atts, i, s.winner.value + 1)
    ensures var s := SelectFrom(atts, i, active, acc);
      s.winner.None? ==>
        && (forall j | i <= j < |atts| :: !Wins(atts, j))
        && s.active == (if AnyDropped(atts, i, |atts|) then None else active)
        && s.events == acc + Trace(atts, i, |atts|)
  {
    SelectFromWinner(atts, i, active, acc);
    SelectFromActive(atts, i, active, acc);
    SelectFromEvents(atts, i, active, acc);
  }

  /** The winner part of `SelectFromSpec`: the first loading position from `i` on, if any. */
  lemma {:induction false} SelectFromWinner(atts: seq<Attempt>, i: int, active: Option<Backend>, acc: seq<Event>)
    requires 0 <= i <= |atts|
    decreases |atts| - i
    ensures var s := SelectFrom(atts, i, active, acc);
      s.winner.Some? ==>
        && i <= s.winner.value < |atts|
        && Wins(atts, s.winner.value)
        && (forall j | i <= j < s.winner.value :: !Wins(atts, j))
        && s.active == Some(atts[s.winner.value].verdict.backend)
    ensures var s := SelectFrom(atts, i, active, acc);
      s.winner.None? ==> forall j | i <= j < |atts| :: !Wins(atts, j)
  {
    if i < |atts| && !atts[i].verdict.Chosen? {
      var next := if atts[i].verdict.Dropped? then None else active;
      SelectFromWinner(atts, i + 1, next, acc + atts[i].events);
    }
  }

  /** The active-backend part of `SelectFromSpec` for a run without a winner. */
  lemma {:induction false} SelectFromActive(atts: seq<Attempt>, i: int, active: Option<Backend>, acc: seq<Event>)
    requires 0 <= i <= |atts|
    decreases |atts| - i
    ensures var s := SelectFrom(atts, i, active, acc);
      s.winner.None? ==> s.active == (if AnyDropped(atts, i, |atts|) then None else active)
  {
    if i < |atts| && !atts[i].verdict.Chosen? {
      var next := if atts[i].verdict.Dropped? then None else active;
      SelectFromActive(atts, i + 1, next, acc + atts[i].events);
      DroppedStep(atts, i);
    }
  }

  /** The calls part of `SelectFromSpec`: those of every position up to the winner, or of all
      positions. */
  lemma {:induction false} SelectFromEvents(atts: seq<Attempt>, i: int, active: Option<Backend>, acc: seq<Event>)
    requires 0 <= i <= |atts|
    decreases |atts| - i
    ensures var s := SelectFrom(atts, i, active, acc);
      s.winner.Some? ==> i <= s.winner.value < |atts| && s.events == acc + Trace(atts, i, s.winner.value + 1)
    ensures var s := SelectFrom(atts, i, active, acc);
      s.winner.None? ==> s.events == acc + Trace(atts, i, |atts|)
  {
    if i < |atts| {
      if atts[i].verdict.Chosen? {
        TraceStep(atts, i, i + 1, acc);
      } else {
        var next := if atts[i].verdict.Dropped? then None else active;
        SelectFromEvents(atts, i + 1, next, acc + atts[i].events);
        var s := SelectFrom(atts, i + 1, next, acc + atts[i].events);
        var end := if s.winner.Some? then s.winner.value + 1 else |atts|;
        TraceStep(atts, i, end, acc);
      }
    }
  }

  /** The calls of positions i, ..., hi-1 are those of position i followed by the rest. */
  lemma TraceStep(atts: seq<Attempt>, i: int, hi: int, acc: seq<Event>)
    requires 0 <= i < hi <= |atts|
    ensures acc + atts[i].events + Trace(atts, i + 1, hi) == acc + Trace(atts, i, hi)
    ensures i + 1 == hi ==> Trace(atts, i, hi) == atts[i].events
  {
    assert Trace(atts, i, hi) == atts[i].events + Trace(atts, i + 1, hi);
  }

  /** Some position from i on was dropped iff position i was or some position after it was. */
  lemma DroppedStep(atts: seq<Attempt>, i: int)
    requires 0 <= i < |atts|
    ensures AnyDropped(atts, i, |atts|) <==> atts[i].verdict.Dropped? || AnyDropped(atts, i + 1, |atts|)
  {
    if AnyDropped(atts, i, |atts|) && !atts[i].verdict.Dropped? {
      var j :| i <= j < |atts| && atts[j].verdict.Dropped?;
      assert i + 1 <= j;
    }
  }


  /** A whole run of the loop over the configured names, starting with no calls made. */
  function Run(ctx: Ctx, active: Option<Backend>): RunResult {
    SelectFrom(Attempts(ctx), 0, active, [])
  }

  /** The outside world of one synchronisation: the registry, the outcome of the remote GET,
      the state of the local cache file, the XML library, whether rewriting the cache file
      succeeds, and whether creating the cache directory fails. */
  datatype Env = Env(
    registry: Registry,
    remote: Result<Bytes, Error>,
    localFile: LocalFile,
    unmarshal: Unmarshal,
    cacheWriteOk: bool,
    mkdirError: Option<Error>)

  /** The metadata phase of remote-checking mode: fetch and decode the remote document, then
      read and decode the local one; the first failure is the result. */
  function PrepareRemote(env: Env): (r: Result<Mode, Error>)
    ensures env.remote.Failure? ==> r == Failure(env.remote.error)
    ensures r.Success? <==>
              && env.remote.Success?
              && CheckRepoMd(env.remote.value, env.unmarshal).Success?
              && LocalMetadata(env.localFile).Success?
              && CheckRepoMd(LocalMetadata(env.localFile).value, env.unmarshal).Success?
    ensures env.remote.Success? && CheckRepoMd(env.remote.value, env.unmarshal).Failure? ==>
              r == Failure(CheckRepoMd(env.remote.value, env.unmarshal).error)
    ensures env.remote.Success? && CheckRepoMd(env.remote.value, env.unmarshal).Success?
            && LocalMetadata(env.localFile).Failure? ==>
              r == Failure(LocalMetadata(env.localFile).error)
    ensures env.remote.Success? && CheckRepoMd(env.remote.value, env.unmarshal).Success?
            && LocalMetadata(env.localFile).Success?
            && CheckRepoMd(LocalMetadata(env.localFile).value, env.unmarshal).Failure? ==>
              r == Failure(CheckRepoMd(LocalMetadata(env.localFile).value, env.unmarshal).error)
    ensures r.Success? ==>
              && r.value.Remote?
              && r.value.remoteData == env.remote.value
              && r.value.remoteMd == CheckRepoMd(env.remote.value, env.unmarshal).value
              && r.value.localMd == CheckRepoMd(LocalMetadata(env.localFile).value, env.unmarshal).value
              && r.value.cacheWriteOk == env.cacheWriteOk
  {
    match env.remote
    case Failure(e) => Failure(e)
    case Success(remoteData) =>
      match CheckRepoMd(remoteData, env.unmarshal)
      case Failure(e) => Failure(e)
      case Success(remoteMd) =>
        match LocalMetadata(env.localFile)
        case Failure(e) => Failure(e)
        case Success(localData) =>
          match CheckRepoMd(localData, env.unmarshal)
          case Failure(e) => Failure(e)
          case Success(localMd) => Success(Remote(remoteData, remoteMd, localMd, env.cacheWriteOk))
  }

  /** The metadata phase of local-only mode: read and decode the local document only; a
      missing cache file gives an empty map. */
  function PrepareLocal(env: Env): (r: Result<Mode, Error>)
    ensures r.Success? <==>
              LocalMetadata(env.localFile).Success?
              && CheckRepoMd(LocalMetadata(env.localFile).value, env.unmarshal).Success?
    ensures LocalMetadata(env.localFile).Failure? ==> r == Failure(LocalMetadata(env.localFile).error)
    ensures LocalMetadata(env.localFile).Success?
            && CheckRepoMd(LocalMetadata(env.localFile).value, env.unmarshal).Failure? ==>
              r == Failure(CheckRepoMd(LocalMetadata(env.localFile).value, env.unmarshal).error)
    ensures r.Success? ==>
              && r.value.Local?
              && r.value.localMd == CheckRepoMd(LocalMetadata(env.localFile).value, env.unmarshal).value
    ensures env.localFile.Missing? ==> r == Success(Local(map[]))
  {
    match LocalMetadata(env.localFile)
    case Failure(e) => Failure(e)
    case Success(localData) =>
      match CheckRepoMd(localData, env.unmarshal)
      case Failure(e) => Failure(e)
      case Success(localMd) => Success(Local(localMd))
  }

  /** The outcome of one synchronisation: the repository afterwards, the calls made, and the
      error returned (`None` for Go's nil error). */
  datatype Sync = Sync(repo: Repository, events: seq<Event>, err: Option<Error>)

  /** A whole run from position 0, read off `SelectFromSpec`: some candidate wins exactly when
      the run has a winner; the first winner is the active backend and the calls are those up
      to it; without a winner the calls are all of them and the active backend is nil or
      untouched. */
  lemma RunOutcome(atts: seq<Attempt>, active: Option<Backend>)
    ensures var s := SelectFrom(atts, 0, active, []);
      && (s.winner.Some? <==> exists i | 0 <= i < |atts| :: Wins(atts, i))
      && (s.winner.Some? ==>
            && s.winner.value < |atts| && Wins(atts, s.winner.value)
            && s.active == Some(atts[s.winner.value].verdict.backend))
      && (forall w | 0 <= w < |atts| && Wins(atts, w) && (forall j | 0 <= j < w :: !Wins(atts, j)) ::
            && s.active == Some(atts[w].verdict.backend)
            && s.events == Trace(atts, 0, w + 1))
      && (s.winner.None? ==>
            && s.active == (if AnyDropped(atts, 0, |atts|) then None else active)
            && s.events == Trace(atts, 0, |atts|))
  {
    RunWinner(atts, active);
    RunFirstWinner(atts, active);
    RunNoWinner(atts, active);
  }

  /** A whole run has a winner exactly when some candidate loads, and the winner loads. */
  lemma RunWinner(atts: seq<Attempt>, active: Option<Backend>)
    ensures var s := SelectFrom(atts, 0, active, []);
      && (s.winner.Some? <==> exists i | 0 <= i < |atts| :: Wins(atts, i))
      && (s.winner.Some? ==>
            && s.winner.value < |atts| && Wins(atts, s.winner.value)
            && s.active == Some(atts[s.winner.value].verdict.backend))
  {
    SelectFromWinner(atts, 0, active, []);
  }

  /** The first loading candidate is the active one, after the calls of every candidate up to
      it. */
  lemma RunFirstWinner(atts: seq<Attempt>, active: Option<Backend>)
    ensures var s := SelectFrom(atts, 0, active, []);
      forall w | 0 <= w < |atts| && Wins(atts, w) && (forall j | 0 <= j < w :: !Wins(atts, j)) ::
        && s.active == Some(atts[w].verdict.backend)
        && s.events == Trace(atts, 0, w + 1)
  {
    SelectFromWinner(atts, 0, active, []);
    SelectFromEvents(atts, 0, active, []);
    var s := SelectFrom(atts, 0, active, []);
    forall w | 0 <= w < |atts| && Wins(atts, w) && (forall j | 0 <= j < w :: !Wins(atts, j))
      ensures s.active == Some(atts[w].verdict.backend) && s.events == Trace(atts, 0, w + 1)
    {
      assert s.winner.Some?;
      FirstWinnerUnique(atts, s.winner.value, w);
      assert [] + Trace(atts, 0, w + 1) == Trace(atts, 0, w + 1);
    }
  }

  /** Without a winner, every candidate made its calls and the active backend is nil once one
      was dropped, untouched otherwise. */
  lemma RunNoWinner(atts: seq<Attempt>, active: Option<Backend>)
    ensures var s := SelectFrom(atts, 0, active, []);
      s.winner.None? ==>
        && s.active == (if AnyDropped(atts, 0, |atts|) then None else active)
        && s.events == Trace(atts, 0, |atts|)
  {
    SelectFromActive(atts, 0, active, []);
    SelectFromEvents(atts, 0, active, []);
    assert [] + Trace(atts, 0, |atts|) == Trace(atts, 0, |atts|);
  }

  /** There is only one first loading position. */
  lemma FirstWinnerUnique(atts: seq<Attempt>, v: int, w: int)
    requires 0 <= v < |atts| && Wins(atts, v) && forall j | 0 <= j < v :: !Wins(atts, j)
    requires 0 <= w < |atts| && Wins(atts, w) && forall j | 0 <= j < w :: !Wins(atts, j)
    ensures v == w
  {
  }

  /** The candidate loop and the final check: "No valid backend found" exactly when no
      candidate loaded; otherwise the repository's active backend is the first loaded one. Only
      the active backend of the repository ever changes. */
  function Conclude(repo: Repository, mode: Mode, registry: Registry): (r: Sync)
    ensures r.repo == repo.(backend := r.repo.backend)
    ensures r.err.None? <==> exists i | 0 <= i < |repo.backends| :: Wins(Attempts(CtxOf(repo, mode, registry)), i)
    ensures r.err.Some? ==> r.err == Some(NoValidBackend)
    ensures r.err.None? ==> r.repo.backend.Some? && r.repo.backend.value.loadOk
    ensures var atts := Attempts(CtxOf(repo, mode, registry));
      forall w | 0 <= w < |atts| && Wins(atts, w) && (forall j | 0 <= j < w :: !Wins(atts, j)) ::
        && r.repo.backend == Some(atts[w].verdict.backend)
        && r.events == Trace(atts, 0, w + 1)
    ensures var atts := Attempts(CtxOf(repo, mode, registry));
      r.err.Some? ==>
        && r.repo.backend == (if AnyDropped(atts, 0, |atts|) then None else repo.backend)
        && r.events == Trace(atts, 0, |atts|)
  {
    var ctx := CtxOf(repo, mode, registry);
    RunOutcome(Attempts(ctx), repo.backend);
    var s := Run(ctx, repo.backend);
    Sync(repo.(backend := s.active), s.events, if s.winner.None? then Some(NoValidBackend) else None)
  }

  /** `setupBackendFromRemote`: a metadata failure is returned before any candidate is tried,
      with the repository untouched. */
  function SyncRemote(repo: Repository, env: Env): (r: Sync)
    ensures PrepareRemote(env).Failure? ==> r == Sync(repo, [], Some(PrepareRemote(env).error))
    ensures PrepareRemote(env).Success? ==> r == Conclude(repo, PrepareRemote(env).value, env.registry)
    ensures r.err.None? ==> r.repo.backend.Some? && r.repo.backend.value.loadOk
  {
    match PrepareRemote(env)
    case Failure(e) => Sync(repo, [], Some(e))
    case Success(mode) => Conclude(repo, mode, env.registry)
  }

  /** `setupBackendFromLocal`: as the remote mode, from the local metadata alone. */
  function SyncLocal(repo: Repository, env: Env): (r: Sync)
    ensures PrepareLocal(env).Failure? ==> r == Sync(repo, [], Some(PrepareLocal(env).error))
    ensures PrepareLocal(env).Success? ==> r == Conclude(repo, PrepareLocal(env).value, env.registry)
    ensures r.err.None? ==> r.repo.backend.Some? && r.repo.backend.value.loadOk
  {
    match PrepareLocal(env)
    case Failure(e) => Sync(repo, [], Some(e))
    case Success(mode) => Conclude(repo, mode, env.registry)
  }
}
