/** Concrete synchronisation runs and their outcomes. */
module Scenarios {
  import opened Common
  import opened Timestamp
  import opened Metadata
  import opened Repo
  import opened Selection

  const RemoteDoc: Bytes := [60, 114, 62]
  const LocalDoc: Bytes := [60, 108, 62]

  const Sqlite: Backend := Backend("primary_db", true, true, true)
  const Flat: Backend := Backend("primary", true, true, true)

  function TwoBackendRepo(): Repository {
    Init("lcg", "http://repo", "/cache", ["sqlite", "flat"])
  }

  /** The XML library on the two documents: the remote one offers both data types (the sqlite
      one newer than the local copy), the local one only the sqlite type. */
  function Unmarshaller(): Unmarshal {
    d => if d == RemoteDoc then Success([DataEntry("primary_db", "c2", "repodata/db2.sqlite", 200.0),
                                        DataEntry("primary", "c1", "repodata/primary.xml", 100.0)])
         else Success([DataEntry("primary_db", "c1", "repodata/db1.sqlite", 100.0)])
  }

  function World(registry: Registry, cacheWriteOk: bool): Env {
    Env(registry, Success(RemoteDoc), Present(LocalDoc), Unmarshaller(), cacheWriteOk, None)
  }

  const RemoteEntries: seq<DataEntry> :=
    [DataEntry("primary_db", "c2", "repodata/db2.sqlite", 200.0),
     DataEntry("primary", "c1", "repodata/primary.xml", 100.0)]
  const LocalEntries: seq<DataEntry> := [DataEntry("primary_db", "c1", "repodata/db1.sqlite", 100.0)]

  const Newer: RepoMd := RepoMd("c2", Time(200, 0), "repodata/db2.sqlite")
  const Older: RepoMd := RepoMd("c1", Time(100, 0), "repodata/db1.sqlite")
  const FlatMd: RepoMd := RepoMd("c1", Time(100, 0), "repodata/primary.xml")

  lemma Decoded()
    ensures CheckRepoMd(RemoteDoc, Unmarshaller()) == Success(map["primary_db" := Newer, "primary" := FlatMd])
    ensures CheckRepoMd(LocalDoc, Unmarshaller()) == Success(map["primary_db" := Older])
  {
    assert RemoteDoc != LocalDoc by { assert RemoteDoc[1] != LocalDoc[1]; }
    assert Unmarshaller()(RemoteDoc) == Success(RemoteEntries);
    assert Unmarshaller()(LocalDoc) == Success(LocalEntries);
    assert FromSeconds(200.0) == Time(200, 0);
    assert FromSeconds(100.0) == Time(100, 0);
    assert RemoteEntries[..1] == [RemoteEntries[0]];
    assert [RemoteEntries[0]][..0] == [];
    assert LocalEntries[..0] == [];
  }

  function RemoteMode(cacheWriteOk: bool): Mode {
    Remote(RemoteDoc, map["primary_db" := Newer, "primary" := FlatMd], map["primary_db" := Older], cacheWriteOk)
  }

  /** With the example documents, the metadata phase of a remote-checking run succeeds with
      the example maps, so the run itself is `Conclude` over `RemoteMode` (the ensures of
      `SyncRemote`); the scenarios below start from there. */
  lemma Prepared(registry: Registry, cacheWriteOk: bool)
    ensures PrepareRemote(World(registry, cacheWriteOk)) == Success(RemoteMode(cacheWriteOk))
  {
    Decoded();
  }

  /** A helper for the example runs below: unfolds the stale branch of `Try` into the
      concrete attempt it makes, so the scenarios can compute their traces. */
  lemma RemoteAttempt(ctx: Ctx, name: string, b: Backend, remote: RepoMd, local: RepoMd)
    requires ctx.mode.Remote?
    requires NewBackend(ctx.registry, name) == Success(b)
    requires b.dataType in ctx.mode.remoteMd && ctx.mode.remoteMd[b.dataType] == remote
    requires LocalRecord(ctx.mode.localMd, b.dataType) == local
    requires NeedsUpdate(b, remote, local)
    ensures var url := DownloadUrl(ctx.repoUrl, remote.location);
            var path := ctx.cachePath;
            var data := ctx.mode.remoteData;
      Try(ctx, name) ==
        if !b.downloadOk then Attempt([Instantiate(name), Download(name, url, false)], Dropped)
        else if !ctx.mode.cacheWriteOk then
          Attempt([Instantiate(name), Download(name, url, true), WriteCache(path, data, false)], Dropped)
        else if !b.loadOk then
          Attempt([Instantiate(name), Download(name, url, true), WriteCache(path, data, true), Load(name, false)], Dropped)
        else
          Attempt([Instantiate(name), Download(name, url, true), WriteCache(path, data, true), Load(name, true)], Chosen(b))
  {
  }

  /** The lookups the candidates' steps make in the example metadata: both data types are
      offered remotely; locally only the sqlite type has a record, an older one. */
  lemma RemoteModeLookups()
    ensures var md := RemoteMode(true);
      && "primary" in md.remoteMd && md.remoteMd["primary"] == FlatMd
      && "primary_db" in md.remoteMd && md.remoteMd["primary_db"] == Newer
      && LocalRecord(md.localMd, "primary") == ZeroRepoMd
      && LocalRecord(md.localMd, "primary_db") == Older
  {
    var md := RemoteMode(true);
    assert "primary" !in md.localMd;
    assert md.localMd["primary_db"] == Older;
  }

  /** The download URLs of the two example records. */
  lemma ExampleUrls()
    ensures DownloadUrl("http://repo", FlatMd.location) == "http://repo/repodata/primary.xml"
    ensures DownloadUrl("http://repo", Newer.location) == "http://repo/repodata/db2.sqlite"
  {
    assert "http://repo" + "/" + "repodata/primary.xml" == "http://repo/repodata/primary.xml";
    assert "http://repo" + "/" + "repodata/db2.sqlite" == "http://repo/repodata/db2.sqlite";
  }

  function ExampleCtx(registry: Registry, repo: Repository): Ctx {
    CtxOf(repo, RemoteMode(true), registry)
  }

  /** The sqlite candidate against the example metadata: its remote data is newer, so it is
      downloaded from the remote location and the cache rewritten before its load. */
  lemma SqliteAttempt(registry: Registry, repo: Repository, b: Backend)
    requires repo.repoUrl == "http://repo" && repo.localRepoMdXml == "/cache/repomd.xml"
    requires "sqlite" in registry && registry["sqlite"] == Success(b)
    requires b.dataType == "primary_db" && b.downloadOk
    ensures Try(ExampleCtx(registry, repo), "sqlite") ==
      Attempt([Instantiate("sqlite"),
               Download("sqlite", "http://repo/repodata/db2.sqlite", true),
               WriteCache("/cache/repomd.xml", RemoteDoc, true),
               Load("sqlite", b.loadOk)], if b.loadOk then Chosen(b) else Dropped)
  {
    SqliteIsStale(registry, repo, b);
    RemoteAttempt(ExampleCtx(registry, repo), "sqlite", b, Newer, Older);
  }

  /** What a sqlite candidate's step reads from the example context: it is registered, its data
      type is offered remotely with a newer record than the local one, so it is stale. */
  lemma SqliteIsStale(registry: Registry, repo: Repository, b: Backend)
    requires repo.repoUrl == "http://repo"
    requires "sqlite" in registry && registry["sqlite"] == Success(b)
    requires b.dataType == "primary_db"
    ensures var ctx := ExampleCtx(registry, repo);
      && ctx.mode.Remote? && ctx.repoUrl == "http://repo"
      && NewBackend(ctx.registry, "sqlite") == Success(b)
      && "primary_db" in ctx.mode.remoteMd && ctx.mode.remoteMd["primary_db"] == Newer
      && LocalRecord(ctx.mode.localMd, "primary_db") == Older
      && NeedsUpdate(b, Newer, Older)
      && DownloadUrl(ctx.repoUrl, Newer.location) == "http://repo/repodata/db2.sqlite"
  {
    RemoteModeLookups();
    ExampleUrls();
    assert After(Newer.timestamp, Older.timestamp);
  }

  /** Backends ["sqlite", "flat"], the remote sqlite data newer than the local one: sqlite is
      downloaded, the cache rewritten, sqlite loaded and made active; flat is never tried. */
  lemma NewerRemoteSelectsFirst()
    ensures var r := Conclude(TwoBackendRepo(), RemoteMode(true), map["sqlite" := Success(Sqlite), "flat" := Success(Flat)]);
      && r.err.None?
      && r.repo.backend == Some(Sqlite)
      && r.events == [Instantiate("sqlite"),
                      Download("sqlite", "http://repo/repodata/db2.sqlite", true),
                      WriteCache("/cache/repomd.xml", RemoteDoc, true),
                      Load("sqlite", true)]
  {
    var registry := map["sqlite" := Success(Sqlite), "flat" := Success(Flat)];
    var repo := TwoBackendRepo();
    SqliteAttempt(registry, repo, Sqlite);
    assert Attempts(ExampleCtx(registry, repo))[0] == Try(ExampleCtx(registry, repo), "sqlite");
    FirstWins(repo, RemoteMode(true), registry);
  }

  /** The first candidate loads: the run succeeds with it active after its calls alone. */
  lemma FirstWins(repo: Repository, mode: Mode, registry: Registry)
    requires var atts := Attempts(CtxOf(repo, mode, registry));
      |atts| >= 1 && atts[0].verdict.Chosen?
    ensures var atts := Attempts(CtxOf(repo, mode, registry));
      var r := Conclude(repo, mode, registry);
      && r.err.None?
      && r.repo.backend == Some(atts[0].verdict.backend)
      && r.events == atts[0].events
  {
    var atts := Attempts(CtxOf(repo, mode, registry));
    assert Wins(atts, 0);
    assert Trace(atts, 0, 1) == atts[0].events + Trace(atts, 1, 1);
  }

  /** The flat candidate against the example metadata: the local metadata has no record of its
      data type, so it is compared with the zero time and downloaded. */
  lemma FlatAttempt(registry: Registry, repo: Repository)
    requires repo.repoUrl == "http://repo" && repo.localRepoMdXml == "/cache/repomd.xml"
    requires "flat" in registry && registry["flat"] == Success(Flat)
    ensures Try(ExampleCtx(registry, repo), "flat") ==
      Attempt([Instantiate("flat"),
               Download("flat", "http://repo/repodata/primary.xml", true),
               WriteCache("/cache/repomd.xml", RemoteDoc, true),
               Load("flat", true)], Chosen(Flat))
  {
    var ctx := ExampleCtx(registry, repo);
    FlatIsStale(registry, repo);
    RemoteAttempt(ctx, "flat", Flat, FlatMd, ZeroRepoMd);
  }

  /** What the flat candidate's step reads from the example context: it is registered, and its
      data type is offered remotely but missing locally. */
  lemma FlatIsStale(registry: Registry, repo: Repository)
    requires repo.repoUrl == "http://repo" && repo.localRepoMdXml == "/cache/repomd.xml"
    requires "flat" in registry && registry["flat"] == Success(Flat)
    ensures var ctx := ExampleCtx(registry, repo);
      && ctx.mode.Remote? && ctx.repoUrl == "http://repo" && ctx.cachePath == "/cache/repomd.xml"
      && ctx.mode.remoteData == RemoteDoc && ctx.mode.cacheWriteOk
      && NewBackend(ctx.registry, "flat") == Success(Flat)
      && "primary" in ctx.mode.remoteMd && ctx.mode.remoteMd["primary"] == FlatMd
      && LocalRecord(ctx.mode.localMd, "primary") == ZeroRepoMd
      && NeedsUpdate(Flat, FlatMd, ZeroRepoMd)
      && DownloadUrl(ctx.repoUrl, FlatMd.location) == "http://repo/repodata/primary.xml"
  {
    RemoteModeLookups();
    ExampleUrls();
    FlatMdAfterZero();
  }

  /** The flat record's timestamp lies after Go's zero time. */
  lemma FlatMdAfterZero()
    ensures NeedsUpdate(Flat, FlatMd, ZeroRepoMd)
  {
    assert After(FlatMd.timestamp, Zero);
  }

  /** The sqlite candidate whose download fails is dropped after that one call. */
  lemma SqliteDownloadFails(registry: Registry, repo: Repository)
    requires repo.repoUrl == "http://repo"
    requires "sqlite" in registry && registry["sqlite"] == Success(Sqlite.(downloadOk := false))
    ensures Try(ExampleCtx(registry, repo), "sqlite") ==
      Attempt([Instantiate("sqlite"), Download("sqlite", "http://repo/repodata/db2.sqlite", false)], Dropped)
  {
    SqliteIsStale(registry, repo, Sqlite.(downloadOk := false));
    RemoteAttempt(ExampleCtx(registry, repo), "sqlite", Sqlite.(downloadOk := false), Newer, Older);
  }

  /** The first candidate's download fails: it is dropped and the second is made active. */
  lemma FailedDownloadFallsBack()
    ensures var r := Conclude(TwoBackendRepo(), RemoteMode(true),
                              map["sqlite" := Success(Sqlite.(downloadOk := false)), "flat" := Success(Flat)]);
      && r.err.None?
      && r.repo.backend == Some(Flat)
      && r.events == [Instantiate("sqlite"),
                      Download("sqlite", "http://repo/repodata/db2.sqlite", false),
                      Instantiate("flat"),
                      Download("flat", "http://repo/repodata/primary.xml", true),
                      WriteCache("/cache/repomd.xml", RemoteDoc, true),
                      Load("flat", true)]
  {
    var registry := map["sqlite" := Success(Sqlite.(downloadOk := false)), "flat" := Success(Flat)];
    FallbackAttempts(registry, TwoBackendRepo());
    SecondWins(TwoBackendRepo(), RemoteMode(true), registry);
  }

  /** The two attempts of the fallback run: sqlite's download fails, flat loads. */
  lemma FallbackAttempts(registry: Registry, repo: Repository)
    requires repo.repoUrl == "http://repo" && repo.localRepoMdXml == "/cache/repomd.xml"
    requires repo.backends == ["sqlite", "flat"]
    requires "sqlite" in registry && registry["sqlite"] == Success(Sqlite.(downloadOk := false))
    requires "flat" in registry && registry["flat"] == Success(Flat)
    ensures var atts := Attempts(ExampleCtx(registry, repo));
      && |atts| == 2 && atts[0].verdict.Dropped? && atts[1].verdict.Chosen?
      && atts[1].verdict.backend == Flat
      && atts[0].events + atts[1].events ==
           [Instantiate("sqlite"),
            Download("sqlite", "http://repo/repodata/db2.sqlite", false),
            Instantiate("flat"),
            Download("flat", "http://repo/repodata/primary.xml", true),
            WriteCache("/cache/repomd.xml", RemoteDoc, true),
            Load("flat", true)]
  {
    var ctx := ExampleCtx(registry, repo);
    SqliteDownloadFails(registry, repo);
    FlatAttempt(registry, repo);
    assert Attempts(ctx)[0] == Try(ctx, "sqlite") && Attempts(ctx)[1] == Try(ctx, "flat");
  }

  /** Two candidates, the first dropped and the second loaded: the run succeeds with the second
      active after both made their calls. */
  lemma SecondWins(repo: Repository, mode: Mode, registry: Registry)
    requires var atts := Attempts(CtxOf(repo, mode, registry));
      |atts| == 2 && atts[0].verdict.Dropped? && atts[1].verdict.Chosen?
    ensures var atts := Attempts(CtxOf(repo, mode, registry));
      var r := Conclude(repo, mode, registry);
      && r.err.None?
      && r.repo.backend == Some(atts[1].verdict.backend)
      && r.events == atts[0].events + atts[1].events
  {
    var atts := Attempts(CtxOf(repo, mode, registry));
    assert !Wins(atts, 0) && Wins(atts, 1);
    assert Trace(atts, 0, 2) == atts[0].events + atts[1].events by {
      assert Trace(atts, 1, 2) == atts[1].events + Trace(atts, 2, 2);
    }
  }

  /** A sole candidate that downloads but does not load: the run fails with "No valid backend
      found" and no active backend, yet the metadata cache already holds the remote document. */
  lemma CacheRewrittenByFailedRun()
    ensures var r := Conclude(Init("lcg", "http://repo", "/cache", ["sqlite"]), RemoteMode(true),
                              map["sqlite" := Success(Sqlite.(loadOk := false))]);
      && r.err == Some(NoValidBackend)
      && r.repo.backend.None?
      && r.events == [Instantiate("sqlite"),
                      Download("sqlite", "http://repo/repodata/db2.sqlite", true),
                      WriteCache("/cache/repomd.xml", RemoteDoc, true),
                      Load("sqlite", false)]
  {
    var registry := map["sqlite" := Success(Sqlite.(loadOk := false))];
    var repo := Init("lcg", "http://repo", "/cache", ["sqlite"]);
    var atts := Attempts(ExampleCtx(registry, repo));
    SqliteAttempt(registry, repo, Sqlite.(loadOk := false));
    assert atts[0].verdict == Dropped;
    assert [] + atts[0].events == atts[0].events;
    assert SelectFrom(atts, 0, None, []) == SelectFrom(atts, 1, None, atts[0].events);
  }

  /** Local-only mode with no cached metadata: every candidate is skipped for lack of its data
      type and the run fails without any download. */
  lemma LocalWithoutCacheFails()
    ensures var r := SyncLocal(TwoBackendRepo(),
                               Env(map["sqlite" := Success(Sqlite), "flat" := Success(Flat)],
                                   Failure(Fetch("offline")), Missing, Unmarshaller(), true, None));
      && r.err == Some(NoValidBackend)
      && r.repo.backend.None?
      && r.events == [Instantiate("sqlite"), Instantiate("flat")]
  {
    var registry := map["sqlite" := Success(Sqlite), "flat" := Success(Flat)];
    var ctx := CtxOf(TwoBackendRepo(), Local(map[]), registry);
    var atts := Attempts(ctx);
    assert PrepareLocal(Env(registry, Failure(Fetch("offline")), Missing, Unmarshaller(), true, None)) == Success(Local(map[]));
    assert atts[0] == Try(ctx, "sqlite") && atts[1] == Try(ctx, "flat");
    assert NewBackend(registry, "sqlite") == Success(Sqlite);
    assert NewBackend(registry, "flat") == Success(Flat);
    assert atts[0] == Attempt([Instantiate("sqlite")], Unavailable);
    assert atts[1] == Attempt([Instantiate("flat")], Unavailable);
    assert [] + atts[0].events == atts[0].events;
    assert SelectFrom(atts, 0, None, []) == SelectFrom(atts, 1, None, atts[0].events);
    assert SelectFrom(atts, 1, None, atts[0].events) == SelectFrom(atts, 2, None, atts[0].events + atts[1].events);
  }

  /** Local-only mode whose cache file exists but cannot be read stops at the metadata phase
      with the file error: no backend is instantiated and none becomes active. */
  lemma UnreadableCacheFails()
    ensures var r := SyncLocal(TwoBackendRepo(),
                               Env(map["sqlite" := Success(Sqlite), "flat" := Success(Flat)],
                                   Failure(Fetch("offline")), Unreadable(Io("permission denied")),
                                   Unmarshaller(), true, None));
      && r.err == Some(Io("permission denied"))
      && r.repo == TwoBackendRepo()
      && r.events == []
  {
  }
}
