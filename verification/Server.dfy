/** All services together: handling an event takes the state machine of the runs one step. */
module Server {
  import opened Wrappers
  import opened Multipart
  import opened Tables
  import opened Database
  import opened Services
  import opened Runs

  class DepotServer {
    const db: SqliteDatabase
    const catalog: StorageCatalog
    const ingest: IngestService
    const collector: GcService

    predicate Wired() {
      ingest.db == collector.db == db && ingest.catalog == collector.catalog == catalog
    }

    function State(): (w: World)
      reads db, catalog
    {
      World(db.Snapshot(), catalog.blobs)
    }

    constructor (cfg: Config, projects: map<string, Project>)
      ensures Wired() && catalog.cfg == cfg && fresh(db) && fresh(catalog)
      ensures Initial(State()) && State().db.projects == projects && State().blobs == map[]
    {
      var d := new SqliteDatabase(projects);
      var c := new StorageCatalog(cfg);
      db, catalog := d, c;
      ingest := new IngestService(d, c);
      collector := new GcService(d, c);
    }

    method HandleAdministration(e: Event, now: int)
      requires Wired() && (e.SetPin? || e.RemovePin? || e.SetPolicy? || e.RemovePolicy? || e.Begin?)
      modifies db
      ensures State() == Step(catalog.cfg, old(State()), e, now)
    {
      match e {
        case Begin(project, refName, id) =>
          var _ := db.BeginBuild(project, refName, id, now);
        case SetPin(key, h, storePath) =>
          var _ := db.UpsertPin(key, h, storePath);
        case RemovePin(key) =>
          var _ := db.DeletePin(key);
        case SetPolicy(project, keepLatest, graceSeconds, rules) =>
          var _ := db.ReplaceProjectRetentionPolicy(project, keepLatest, graceSeconds, rules);
        case RemovePolicy(project) =>
          if project in db.projects {
            db.DeleteProjectRetentionPolicy(project);
          }
      }
    }

    method Handle(e: Event, now: int)
      requires Wired()
      modifies db, catalog
      ensures State() == Step(catalog.cfg, old(State()), e, now)
    {
      match e {
        case Register(id, narinfos, unopened) =>
          var _ := ingest.RegisterPaths(id, narinfos, unopened, _ => "");
        case Upload(id, h, path, bytes) =>
          var _ := ingest.UploadObject(id, h, path, bytes, true);
        case Complete(id, h, path, bytes, reported, etag) =>
          var parts := [CompletedPart(1, "")];
          var _ := ingest.CompleteMultipartUpload(id, h, path, "", parts, (_, _) => Some(bytes), reported, etag);
        case Finalize(id) =>
          var _ := ingest.FinalizeBuild(id, now);
        case Collect(dryRun, grace, failing) =>
          var _ := collector.RunLocalGcWithGracePeriod(dryRun, grace, failing, now);
        case _ =>
          HandleAdministration(e, now);
      }
    }

    /** Events in the order of the clock, one after another from an empty depot, make a run. */
    method HandleAll(events: seq<Timed>) returns (ghost run: Run)
      requires Wired() && Initial(State()) && ClockAdvances(events)
      modifies db, catalog
      ensures IsRun(catalog.cfg, run) && run.events == events
      ensures run.worlds[0] == old(State()) && run.worlds[|events|] == State()
    {
      run := Run([State()], []);
      for i := 0 to |events|
        invariant IsRun(catalog.cfg, run) && run.events == events[..i]
        invariant run.worlds[0] == old(State()) && run.worlds[i] == State()
      {
        ghost var before := run;
        assert before.events + [events[i]] == events[..i + 1];
        Handle(events[i].event, events[i].at);
        run := Extend(catalog.cfg, before, events[i]);
        ExtendedRun(catalog.cfg, before, events[i]);
      }
    }
  }
}
