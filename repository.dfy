/**
 * The `Repository` contract and `NewStorage`: the backend is chosen from
 * the configuration, a file path first, then a database DSN, then memory.
 * Each backend class declares the operations of `Repository`
 * (`CreateShort`, `GetOriginal`, `MarkAsDeleted`, `GetURLArrayByUser`,
 * `PingDB`, the configuration `Cfg`); `GetStatistic` only the map backend.
 */
module Repository {
  import opened Common
  import opened Decimal
  import opened Configuration
  import opened MapModel
  import opened MapBackend
  import opened Lines
  import opened FileBackend
  import opened DBModel
  import opened DBBackend

  datatype Backend = File | DB | Map

  /** The backend `NewStorage` chooses. */
  function Select(cfg: Config): (b: Backend)
    ensures b == File <==> cfg.StoragePath != ""
    ensures b == DB <==> cfg.StoragePath == "" && cfg.BasePath != ""
    ensures b == Map <==> cfg.StoragePath == "" && cfg.BasePath == ""
  {
    if cfg.StoragePath != "" then File
    else if cfg.BasePath != "" then DB
    else Map
  }

  /**
   * With the merge order of `parseConfigs`, a file path given by any source
   * selects the file backend; with no path and no DSN from any source, the
   * defaults select the map backend.
   */
  lemma SelectMerged(fileCfg: Config, envCfg: Config, flagCfg: Config)
    ensures var cfg := Merge(Merge(Merge(GetDefaultConfig(), fileCfg), envCfg), flagCfg);
      && (Select(cfg) == File <==> fileCfg.StoragePath != "" || envCfg.StoragePath != "" || flagCfg.StoragePath != "")
      && (Select(cfg) == Map <==>
            && fileCfg.StoragePath == "" && envCfg.StoragePath == "" && flagCfg.StoragePath == ""
            && fileCfg.BasePath == "" && envCfg.BasePath == "" && flagCfg.BasePath == "")
  {
  }

  /** The storage `NewStorage` returns, with the backend's own state. */
  datatype Storage = FileRepo(f: FileStorage) | DBRepo(d: DBStorage) | MapRepo(m: MapStorage)

  /** What the chosen constructor finds: the file's content and the database's table, and which of their operations fail. */
  datatype Environment = Environment(
    disk: string, fileOpenFails: bool, fileScanFails: bool,
    table: seq<Row>, dbOpenFails: bool, countFails: bool)

  /**
   * `NewStorage`: calls the constructor of the selected backend and returns
   * its storage and error unchanged.
   */
  method NewStorage(cfg: Config, env: Environment) returns (s: Storage, err: Option<Error>)
    ensures Select(cfg) == File <==> s.FileRepo?
    ensures Select(cfg) == DB <==> s.DBRepo?
    ensures Select(cfg) == Map <==> s.MapRepo?
    ensures s.FileRepo? ==>
      && fresh(s.f) && s.f.Cfg == cfg
      && (err == None <==> !env.fileOpenFails && !env.fileScanFails)
      && (err == None ==> s.f.Content == env.disk && s.f.LastID == |LinesOf(env.disk)|)
    ensures s.DBRepo? ==>
      && fresh(s.d) && s.d.Cfg == cfg && s.d.Items == env.table
      && (err == None <==> !env.dbOpenFails && !env.countFails)
      && (err == None ==> s.d.LastID == |env.table|)
    ensures s.MapRepo? ==> fresh(s.m) && s.m.Cfg == cfg && s.m.Valid() && s.m.Urls == [] && err == None
  {
    match Select(cfg)
    case File =>
      var f;
      f, err := FileStorage.NewFileStorage(cfg, env.disk, env.fileOpenFails, env.fileScanFails);
      s := FileRepo(f);
    case DB =>
      var d;
      d, err := DBStorage.NewDBStorage(cfg, env.table, env.dbOpenFails, env.countFails);
      s := DBRepo(d);
    case Map =>
      var m := new MapStorage(cfg);
      s, err := MapRepo(m), None;
  }

  /**
   * A `CreateShort` reply that the handlers may index: whenever the error is
   * nil or `ErrExists`, there is an id for each of the `n` URLs.
   */
  predicate Complete(reply: (Option<seq<string>>, Option<Error>), n: nat)
  {
    reply.1 == None || reply.1 == Some(ErrExists) ==> reply.0.Some? && |reply.0.value| == n
  }

  /** The map backend's `CreateShort` keeps that promise (the file backend's reply, `IdRange`, has `|urls|` ids) ... */
  lemma MapReplyComplete(urls0: seq<string>, owners0: seq<string>, user: string, batch: seq<string>, isURI: string -> bool)
    requires Distinct(urls0) && |owners0| == |urls0|
    ensures Complete(Outcome(CreateRun(urls0, owners0, user, batch, isURI)), |batch|)
  {
    RunKeepsStore(urls0, owners0, user, batch, isURI);
  }

  /** ... and the database backend, whose committed reply has an id per URL. */
  lemma DBReplyComplete(items: seq<Row>, lastID: nat, user: string, urls: seq<string>, fails: Stmt -> bool)
    ensures var c := Insert(items, lastID, user, urls, fails);
      Complete((Some(c.ids), c.err), |urls|)
  {
    InsertEffect(items, lastID, user, urls, fails);
  }
}
