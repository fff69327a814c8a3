/** Properties of the selection protocol that relate several calls or a whole run: candidates
    are tried in configured order, cache writes only follow successful downloads, the
    local-only mode never downloads, and the staleness rule decides every download. */
module Properties {
  import opened Common
  import opened Timestamp
  import opened Metadata
  import opened Repo
  import opened Selection

  /** The candidate names instantiated, in call order. */
  function Instantiations(evs: seq<Event>): seq<string> {
    if evs == [] then []
    else (if evs[0].Instantiate? then [evs[0].name] else []) + Instantiations(evs[1..])
  }

  lemma {:induction false} InstantiationsConcat(a: seq<Event>, b: seq<Event>)
    ensures Instantiations(a + b) == Instantiations(a) + Instantiations(b)
  {
    if a == [] {
      assert a + b == b;
    } else {
      assert (a + b)[0] == a[0];
      assert (a + b)[1..] == a[1..] + b;
      InstantiationsConcat(a[1..], b);
    }
  }

  lemma {:induction false} InstantiationsNone(evs: seq<Event>)
    requires forall k | 0 <= k < |evs| :: !evs[k].Instantiate?
    ensures Instantiations(evs) == []
  {
    if evs != [] {
      InstantiationsNone(evs[1..]);
    }
  }

  /** Each attempt instantiates exactly its own candidate. */
  lemma AttemptInstantiatesOnce(ctx: Ctx, name: string)
    ensures Instantiations(Try(ctx, name).events) == [name]
  {
    var evs := Try(ctx, name).events;
    assert evs == [evs[0]] + evs[1..];
    InstantiationsNone(evs[1..]);
    InstantiationsConcat([evs[0]], evs[1..]);
  }

  /** When each attempt instantiates exactly the name at its position, the attempts of
      positions lo..hi-1 instantiate exactly the names at those positions. */
  lemma {:induction false} TraceInstantiationsOf(atts: seq<Attempt>, names: seq<string>, lo: int, hi: int)
    requires |atts| == |names|
    requires forall i | 0 <= i < |atts| :: Instantiations(atts[i].events) == [names[i]]
    requires 0 <= lo <= hi <= |atts|
    decreases hi - lo
    ensures Instantiations(Trace(atts, lo, hi)) == names[lo..hi]
  {
    if lo < hi {
      TraceInstantiationsOf(atts, names, lo + 1, hi);
      InstantiationsConcat(atts[lo].events, Trace(atts, lo + 1, hi));
      assert names[lo..hi] == [names[lo]] + names[lo + 1..hi];
    }
  }

  /** The attempts of positions lo..hi-1 instantiate exactly the names at those positions. */
  lemma TraceInstantiations(ctx: Ctx, lo: int, hi: int)
    requires 0 <= lo <= hi <= |ctx.names|
    ensures Instantiations(Trace(Attempts(ctx), lo, hi)) == ctx.names[lo..hi]
  {
    var atts := Attempts(ctx);
    forall i | 0 <= i < |atts| ensures Instantiations(atts[i].events) == [ctx.names[i]] {
      AttemptInstantiatesOnce(ctx, ctx.names[i]);
    }
    TraceInstantiationsOf(atts, ctx.names, lo, hi);
  }

  /** Candidates are instantiated strictly in configured order: all of them when none loads,
      and exactly those up to and including the winner otherwise, so later names are never
      instantiated. */
  lemma TriedInOrder(ctx: Ctx, active: Option<Backend>)
    ensures var s := Run(ctx, active);
      s.winner.Some? ==> s.winner.value < |ctx.names| && Instantiations(s.events) == ctx.names[..s.winner.value + 1]
    ensures var s := Run(ctx, active);
      s.winner.None? ==> Instantiations(s.events) == ctx.names
  {
    var atts := Attempts(ctx);
    SelectFromSpec(atts, 0, active, []);
    var s := Run(ctx, active);
    var end := if s.winner.Some? then s.winner.value + 1 else |ctx.names|;
    TraceInstantiations(ctx, 0, end);
    assert [] + Trace(atts, 0, end) == Trace(atts, 0, end);
    assert ctx.names[0..|ctx.names|] == ctx.names;
  }

  /** The well-formedness every attempt's calls have; preserved when attempts are chained. */
  predicate WellOrdered(evs: seq<Event>, path: string, data: Bytes) {
    WritesFollowDownloads(evs, path, data) && LoadsFollowSetup(evs)
  }

  lemma WellOrderedConcat(a: seq<Event>, b: seq<Event>, path: string, data: Bytes)
    requires WellOrdered(a, path, data) && WellOrdered(b, path, data)
    requires |b| > 0 ==> b[0].Instantiate?
    ensures WellOrdered(a + b, path, data)
  {
  }

  /** In remote-checking mode, every cache write in a run stores the whole remote document at
      the repository's cache path right after a successful download, and every load follows
      either the instantiation or a successful cache write. */
  lemma {:induction false} RemoteTraceWellOrdered(ctx: Ctx, lo: int, hi: int)
    requires ctx.mode.Remote?
    requires 0 <= lo <= hi <= |ctx.names|
    decreases hi - lo
    ensures WellOrdered(Trace(Attempts(ctx), lo, hi), ctx.cachePath, ctx.mode.remoteData)
  {
    var atts := Attempts(ctx);
    if lo < hi {
      RemoteTraceWellOrdered(ctx, lo + 1, hi);
      var rest := Trace(atts, lo + 1, hi);
      if lo + 1 < hi {
        assert rest[0] == atts[lo + 1].events[0];
      }
      WellOrderedConcat(atts[lo].events, rest, ctx.cachePath, ctx.mode.remoteData);
    }
  }

  lemma {:induction false} LocalTraceNoNetwork(ctx: Ctx, lo: int, hi: int)
    requires ctx.mode.Local?
    requires 0 <= lo <= hi <= |ctx.names|
    decreases hi - lo
    ensures NoNetwork(Trace(Attempts(ctx), lo, hi))
  {
    var atts := Attempts(ctx);
    if lo < hi {
      LocalTraceNoNetwork(ctx, lo + 1, hi);
      var t := Trace(atts, lo, hi);
      forall k | 0 <= k < |t| ensures !t[k].Download? && !t[k].WriteCache? {
        if k >= |atts[lo].events| {
          assert t[k] == Trace(atts, lo + 1, hi)[k - |atts[lo].events|];
        }
      }
    }
  }

  /** A run of the loop makes the calls of every position up to the winner, or of all
      positions when none wins. */
  lemma RunTrace(ctx: Ctx, active: Option<Backend>)
    ensures var s := Run(ctx, active);
      s.winner.Some? ==> s.winner.value < |ctx.names| && s.events == Trace(Attempts(ctx), 0, s.winner.value + 1)
    ensures var s := Run(ctx, active);
      s.winner.None? ==> s.events == Trace(Attempts(ctx), 0, |ctx.names|)
  {
    var atts := Attempts(ctx);
    SelectFromSpec(atts, 0, active, []);
    var s := Run(ctx, active);
    var end := if s.winner.Some? then s.winner.value + 1 else |atts|;
    assert [] + Trace(atts, 0, end) == Trace(atts, 0, end);
  }

  /** Local-only mode never downloads a database and never writes the metadata cache. */
  lemma LocalModeNeverDownloads(repo: Repository, env: Env)
    ensures NoNetwork(SyncLocal(repo, env).events)
  {
    if PrepareLocal(env).Success? {
      var ctx := CtxOf(repo, PrepareLocal(env).value, env.registry);
      RunTrace(ctx, repo.backend);
      var s := Run(ctx, repo.backend);
      LocalTraceNoNetwork(ctx, 0, if s.winner.Some? then s.winner.value + 1 else |ctx.names|);
    }
  }

  /** Remote-checking mode: every cache write of a run stores the full remote document at the
      repository's cache path, right after a successful download. */
  lemma RemoteWritesFollowDownloads(repo: Repository, env: Env)
    requires PrepareRemote(env).Success?
    ensures WellOrdered(SyncRemote(repo, env).events, repo.localRepoMdXml, env.remote.value)
  {
    var ctx := CtxOf(repo, PrepareRemote(env).value, env.registry);
    RunTrace(ctx, repo.backend);
    var s := Run(ctx, repo.backend);
    RemoteTraceWellOrdered(ctx, 0, if s.winner.Some? then s.winner.value + 1 else |ctx.names|);
  }

  /** A candidate that exists and whose data type the remote metadata offers is downloaded
      exactly when it is stale, from `<repository url>/<remote location>`. */
  lemma DownloadIffStale(ctx: Ctx, name: string)
    requires ctx.mode.Remote?
    requires NewBackend(ctx.registry, name).Success?
    requires NewBackend(ctx.registry, name).value.dataType in ctx.mode.remoteMd
    ensures var b := NewBackend(ctx.registry, name).value;
            var remote := ctx.mode.remoteMd[b.dataType];
            var evs := Try(ctx, name).events;
      && (NeedsUpdate(b, remote, LocalRecord(ctx.mode.localMd, b.dataType)) <==> |evs| > 1 && evs[1].Download?)
      && (forall k | 0 <= k < |evs| && evs[k].Download? ::
            k == 1 && evs[k] == Download(name, DownloadUrl(ctx.repoUrl, remote.location), b.downloadOk))
  {
  }

  /** With a database on disk and equal remote and local timestamps nothing is downloaded and
      the cache is not rewritten: only a strictly later remote timestamp forces an update. */
  lemma EqualTimestampsNoDownload(ctx: Ctx, name: string)
    requires ctx.mode.Remote?
    requires NewBackend(ctx.registry, name).Success?
    requires NewBackend(ctx.registry, name).value.hasDB
    requires var t := NewBackend(ctx.registry, name).value.dataType;
      t in ctx.mode.remoteMd && t in ctx.mode.localMd
      && ctx.mode.remoteMd[t].timestamp == ctx.mode.localMd[t].timestamp
    ensures NoNetwork(Try(ctx, name).events)
  {
  }

  /** A data type the local metadata lacks is compared against Go's zero time, so any remote
      timestamp at least one nanosecond into year 1 forces a download, with or without a database
      on disk. */
  lemma MissingLocalRecordForcesDownload(ctx: Ctx, name: string, e: DataEntry)
    requires ctx.mode.Remote?
    requires NewBackend(ctx.registry, name).Success?
    requires var t := NewBackend(ctx.registry, name).value.dataType;
      t !in ctx.mode.localMd && t in ctx.mode.remoteMd && ctx.mode.remoteMd[t] == Record(e)
    requires e.timestamp >= -62135596800.0 + 0.000000001
    ensures var evs := Try(ctx, name).events; |evs| > 1 && evs[1].Download?
  {
  }

  /** The metadata cache is rewritten with the remote document as soon as the download
      succeeds, before `LoadDB`: a candidate that then fails to load has still replaced the
      cache, and the loop moves on with no active backend. */
  lemma CacheWrittenEvenIfLoadFails(ctx: Ctx, name: string)
    requires ctx.mode.Remote? && ctx.mode.cacheWriteOk
    requires NewBackend(ctx.registry, name).Success?
    requires var b := NewBackend(ctx.registry, name).value;
      && b.dataType in ctx.mode.remoteMd
      && NeedsUpdate(b, ctx.mode.remoteMd[b.dataType], LocalRecord(ctx.mode.localMd, b.dataType))
      && b.downloadOk && !b.loadOk
    ensures var a := Try(ctx, name);
      && a.verdict.Dropped?
      && |a.events| == 4
      && a.events[2] == WriteCache(ctx.cachePath, ctx.mode.remoteData, true)
      && a.events[3] == Load(name, false)
  {
  }

  /** When no candidate's data type is offered (or no name is registered), the run fails with
      "No valid backend found", makes no call beyond the lookups, and leaves the repository's
      active backend as it was. */
  lemma NothingOfferedFails(repo: Repository, mode: Mode, registry: Registry)
    requires forall i | 0 <= i < |repo.backends| ::
      NewBackend(registry, repo.backends[i]).Failure?
      || NewBackend(registry, repo.backends[i]).value.dataType !in Offered(mode)
    ensures var r := Conclude(repo, mode, registry);
      && r.err == Some(NoValidBackend)
      && r.repo == repo
      && NoNetwork(r.events)
      && Instantiations(r.events) == repo.backends
  {
    var ctx := CtxOf(repo, mode, registry);
    var atts := Attempts(ctx);
    SelectFromSpec(atts, 0, repo.backend, []);
    assert forall i | 0 <= i < |atts| :: atts[i].verdict.Unavailable?;
    assert !AnyDropped(atts, 0, |atts|);
    TriedInOrder(ctx, repo.backend);
    AllSkippedNoNetwork(atts, 0, |atts|);
    assert repo.backends[..|repo.backends|] == repo.backends;
  }

  lemma {:induction false} AllSkippedNoNetwork(atts: seq<Attempt>, lo: int, hi: int)
    requires 0 <= lo <= hi <= |atts|
    requires forall i | lo <= i < hi :: |atts[i].events| == 1 && atts[i].events[0].Instantiate?
    decreases hi - lo
    ensures NoNetwork(Trace(atts, lo, hi))
  {
    if lo < hi {
      AllSkippedNoNetwork(atts, lo + 1, hi);
    }
  }
}
