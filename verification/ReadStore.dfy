/** Which objects a view shows, and which backend's copy is served
    (crates/depot-read/src/local_objects.rs, crates/depot-db/src/objects.rs and the view definitions of
    crates/depot-db/migrations/20260420082641_pins_and_local_gc.sql). */
module ReadStore {
  import opened Wrappers
  import opened Ordering
  import opened Text
  import opened Tables

  datatype View = AggregateView | ProjectView(project: string)

  predicate RefVisible(db: Db, view: View, key: RefKey) {
    match view
    case ProjectView(project) => key.project == project && project in db.projects
    case AggregateView => key.project in db.projects && db.projects[key.project].isPublic
  }

  predicate PinVisible(db: Db, view: View, key: PinKey) {
    match view
    case ProjectView(project) => key.scope == ProjectScope(project) && project in db.projects
    case AggregateView => key.scope == GlobalScope
  }

  /** The views `project_visible_paths` and `aggregate_visible_paths`. */
  function VisiblePaths(db: Db, view: View): (r: set<string>) {
    (set key, bp | key in db.refs && RefVisible(db, view, key) && bp in db.buildPaths
                   && bp.buildId == db.refs[key].buildId :: bp.storePathHash)
    + (set key | key in db.pins && PinVisible(db, view, key) :: db.pins[key].storePathHash)
  }

  /** `storage_object_visible_in_view`. */
  predicate ObjectVisible(db: Db, view: View, path: string) {
    exists o :: o in db.pathObjects && o.path == path && o.storePathHash in VisiblePaths(db, view)
  }

  /** `list_storage_objects`: the backends with an unmarked row for the object. */
  function RowsOf(db: Db, path: string): (r: set<string>) {
    set k | k in db.objects && k.path == path && db.objects[k].deletedAt.None? :: k.storageId
  }

  /** The configured backends that hold an object and have an unmarked row for it. */
  function Available(cfg: Config, w: World, path: string): (r: set<string>) {
    set k | k in w.db.objects && k.path == path && w.db.objects[k].deletedAt.None?
            && k.storageId in cfg.backends && k in w.blobs :: k.storageId
  }

  /** The order in which copies are tried: the preferred backend's first, then by backend. */
  predicate TriedBefore(preferred: Option<string>, a: string, b: string) {
    preferred == Some(a) || (preferred != Some(b) && Leq(a, b))
  }

  /** The order as a function of two backends. */
  function Tried(preferred: Option<string>): (leq: (string, string) -> bool) {
    (a, b) => TriedBefore(preferred, a, b)
  }

  lemma TriedIsTotalOrder(preferred: Option<string>)
    ensures TotalOrder(Tried(preferred))
  {
    LeqIsTotalOrder();
  }

  /** The preferred backend when it can serve, else the first one that can. */
  ghost predicate IsChoice(available: set<string>, preferred: Option<string>, id: string) {
    && id in available
    && (preferred.Some? && preferred.value in available ==> id == preferred.value)
    && (preferred.None? || preferred.value !in available ==> forall other :: other in available ==> Leq(id, other))
  }

  lemma ChoiceExists(available: set<string>, preferred: Option<string>)
    ensures available == {} <==> forall id :: !IsChoice(available, preferred, id)
  {
    if preferred.Some? && preferred.value in available {
      assert IsChoice(available, preferred, preferred.value);
    } else if available != {} {
      LeqIsTotalOrder();
      AscendingMembers(available, Leq);
      var r := Ascending(available, Leq);
      var some :| some in available;
      assert some in r;
      assert IsChoice(available, preferred, r[0]);
    }
  }

  lemma ChoiceIsUnique(available: set<string>, preferred: Option<string>, a: string, b: string)
    requires IsChoice(available, preferred, a) && IsChoice(available, preferred, b)
    ensures a == b
  {
    LeqIsTotalOrder();
  }

  /** `get_unscoped`: the metadata of the chosen row with the backend's bytes. */
  ghost function Fetched(cfg: Config, w: World, preferred: Option<string>, path: string): (r: Option<(Metadata, Blob)>)
    ensures r.None? <==> Available(cfg, w, path) == {}
  {
    var available := Available(cfg, w, path);
    ChoiceExists(available, preferred);
    if available == {} then None
    else
      var id :| IsChoice(available, preferred, id);
      assert ObjectKey(id, path) in w.db.objects;
      Some((w.db.objects[ObjectKey(id, path)].metadata, w.blobs[ObjectKey(id, path)]))
  }

  /** Whichever backend is the choice, its row and its bytes are what is fetched. */
  lemma FetchedChoice(cfg: Config, w: World, preferred: Option<string>, path: string, id: string)
    requires IsChoice(Available(cfg, w, path), preferred, id)
    ensures ObjectKey(id, path) in w.db.objects && ObjectKey(id, path) in w.blobs
    ensures Fetched(cfg, w, preferred, path)
            == Some((w.db.objects[ObjectKey(id, path)].metadata, w.blobs[ObjectKey(id, path)]))
  {
    var chosen :| IsChoice(Available(cfg, w, path), preferred, chosen)
      && Fetched(cfg, w, preferred, path)
         == Some((w.db.objects[ObjectKey(chosen, path)].metadata, w.blobs[ObjectKey(chosen, path)]));
    ChoiceIsUnique(Available(cfg, w, path), preferred, chosen, id);
  }

  /** `preferred_storage_id`. */
  function PreferredStorage(cfg: Config, db: Db, view: View): (r: Option<string>) {
    match view
    case AggregateView => Some(cfg.defaultStorage)
    case ProjectView(project) => if project in db.projects then Some(db.projects[project].storageId) else None
  }

  /** Only registered projects show anything, so a visible object has a preferred backend. */
  lemma VisibleHasPreference(cfg: Config, db: Db, view: View, path: string)
    requires ObjectVisible(db, view, path)
    ensures PreferredStorage(cfg, db, view).Some?
  {}

  /** `get_visible`. */
  ghost function GetVisible(cfg: Config, w: World, view: View, path: string): (r: Option<(Metadata, Blob)>) {
    if !ObjectVisible(w.db, view, path) then None
    else Fetched(cfg, w, PreferredStorage(cfg, w.db, view), path)
  }
}
