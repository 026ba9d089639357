/** Every interleaving of backup runs and deletions: which files the rows can still open. */
module BackupRuns {
  import opened Wrappers
  import opened BackupNames
  import opened Identifiers
  import opened BackupStore

  /** What a backup was created as; never changed afterwards. */
  datatype Birth = Birth(server: string, policy: Option<Id>, database: string, storage: Storage, now: nat)

  /** A run in progress, working on the row it read when it began. */
  datatype Job = Dumping(b: Backup) | Uploaded(b: Backup, driveId: string)

  /** A deletion in progress: it has read its row as completed and goes on to the file, or it goes on to the
      row, having removed the file or, for a row it read before it had completed, not. */
  datatype Request = ToFile(id: Id, b: Backup) | ToRow(id: Id, fileRemoved: bool)

  /** The store, the runs and deletions in progress, and what happened: all births, the runs ever begun, the
      place each backup's dump goes to (once known), the dumps ever stored, those of them since overwritten or
      removed, and the rows that went with their server or by a deletion that removed no file. */
  datatype World = World(store: Store, jobs: map<Id, Job>, requests: map<nat, Request>,
                         born: map<Id, Birth>, begun: set<Id>, place: map<Id, Ref>,
                         uploaded: set<Id>, lost: set<Id>, dropped: set<Id>)

  datatype Event =
    | Insert(id: Id, birth: Birth)
    | Begin(id: Id)
    | Upload(id: Id, driveId: string)
    | Complete(id: Id)
    | Fail(id: Id, saved: bool)
    | AskDelete(request: nat, id: Id, server: string)
    | RemoveFile(request: nat, works: bool)
    | RemoveRow(request: nat, works: bool)
    | RemoveServer(server: string)
    | RemovePolicy(policy: Id)

  function Start(): World {
    World(Store(map[], map[]), map[], map[], map[], {}, map[], {}, {}, {})
  }

  function RowOf(x: Birth): Backup {
    NewBackup(x.server, x.policy, x.database, x.storage, x.now)
  }

  /** The file that a local backup is stored as. */
  function HomeOf(x: Birth): Ref {
    LocalFile(LocalPath(x.server, Filename(x.database, x.now / 1_000_000)))
  }

  predicate GoodBirth(x: Birth) {
    PlainName(x.server) && IsIdent(x.database) && FourDigitYear(x.now / 1_000_000)
  }

  predicate SameName(x: Birth, y: Birth) {
    x.server == y.server && x.database == y.database && x.now / 1_000_000 == y.now / 1_000_000
  }

  ghost predicate NewDriveId(w: World, driveId: string) {
    forall j | j in w.place :: w.place[j] != DriveFile(driveId)
  }

  /** What may happen next: ids, drive ids and requests are fresh, a backup is run once, and a deletion takes
      its steps in order. */
  ghost predicate Enabled(w: World, e: Event) {
    match e
    case Insert(id, x) => id !in w.born && GoodBirth(x)
    case Begin(id) => id in w.store.rows && id !in w.begun
    case Upload(id, driveId) =>
      && id in w.jobs && w.jobs[id].Dumping?
      && (w.jobs[id].b.storage == GDrive ==> NewDriveId(w, driveId))
    case Complete(id) => id in w.jobs && w.jobs[id].Uploaded?
    case Fail(id, _) => id in w.jobs
    case AskDelete(q, _, _) => q !in w.requests
    case RemoveFile(q, _) => q in w.requests && w.requests[q].ToFile?
    case RemoveRow(q, _) => q in w.requests && w.requests[q].ToRow?
    case RemoveServer(_) => true
    case RemovePolicy(_) => true
  }

  function Inserted(w: World, id: Id, x: Birth): World {
    w.(store := w.store.(rows := w.store.rows[id := RowOf(x)]), born := w.born[id := x],
       place := if x.storage == Local then w.place[id := HomeOf(x)] else w.place)
  }

  function Begun(w: World, id: Id): World {
    if id !in w.store.rows then w
    else w.(jobs := w.jobs[id := Dumping(w.store.rows[id])], begun := w.begun + {id})
  }

  /** The dumps stored at `ref`. */
  function StoredAt(w: World, ref: Ref): set<Id> {
    set j | j in w.uploaded && j in w.place && w.place[j] == ref
  }

  function Put(w: World, id: Id, driveId: string, ref: Ref): World
    requires id in w.jobs
  {
    w.(store := Placed(w.store, id, ref), jobs := w.jobs[id := Uploaded(w.jobs[id].b, driveId)],
       place := w.place[id := ref], uploaded := w.uploaded + {id}, lost := w.lost + (StoredAt(w, ref) - {id}))
  }

  function UploadedTo(w: World, id: Id, driveId: string): World {
    if id !in w.jobs then w
    else
      var dest := Destination(w.jobs[id].b, driveId);
      if dest.Err? then w else Put(w, id, driveId, dest.value)
  }

  function Finished(w: World, id: Id): World {
    if id in w.jobs && w.jobs[id].Uploaded?
    then w.(store := MarkedCompleted(w.store, id, w.jobs[id].driveId), jobs := w.jobs - {id})
    else w
  }

  /** `saved` says whether the failure reaches the row. */
  function FailedRun(w: World, id: Id, saved: bool): World {
    w.(store := if saved then MarkedFailed(w.store, id) else w.store, jobs := w.jobs - {id})
  }

  function Asked(w: World, q: nat, id: Id, server: string): World {
    if id !in w.store.rows || w.store.rows[id].server != server then w
    else
      var b := w.store.rows[id];
      w.(requests := w.requests[q := if b.status == Completed then ToFile(id, b) else ToRow(id, false)])
  }

  function FileRemoved(w: World, q: nat, works: bool): World {
    if q !in w.requests || !w.requests[q].ToFile? then w
    else
      var ref := Locate(w.requests[q].b);
      if !works || ref.Err? then w.(requests := w.requests - {q})
      else Cleared(w, q, ref.value)
  }

  function Cleared(w: World, q: nat, ref: Ref): World
    requires q in w.requests
  {
    w.(store := w.store.(files := w.store.files - {ref}),
       requests := w.requests[q := ToRow(w.requests[q].id, true)],
       lost := w.lost + StoredAt(w, ref))
  }

  function RowRemoved(w: World, q: nat, works: bool): World {
    if q !in w.requests || !w.requests[q].ToRow? then w
    else
      var id := w.requests[q].id;
      var v := w.(requests := w.requests - {q});
      if !works || id !in w.store.rows then v
      else v.(store := w.store.(rows := w.store.rows - {id}),
              dropped := if w.requests[q].fileRemoved then w.dropped else w.dropped + {id})
  }

  function OfServer(w: World, server: string): set<Id> {
    set id | id in w.store.rows && w.store.rows[id].server == server
  }

  /** The rows go by cascade; no file is touched. */
  function ServerRemoved(w: World, server: string): World {
    w.(store := w.store.(rows := w.store.rows - OfServer(w, server)), dropped := w.dropped + OfServer(w, server))
  }

  /** Rows of the policy stay, with no policy. */
  function PolicyRemoved(w: World, policy: Id): World {
    w.(store := w.store.(rows := map id | id in w.store.rows :: WithoutPolicy(w.store.rows[id], policy)))
  }

  function WithoutPolicy(b: Backup, policy: Id): Backup {
    if b.policy == Some(policy) then b.(policy := None) else b
  }

  function Step(w: World, e: Event): World {
    match e
    case Insert(id, x) => Inserted(w, id, x)
    case Begin(id) => Begun(w, id)
    case Upload(id, driveId) => UploadedTo(w, id, driveId)
    case Complete(id) => Finished(w, id)
    case Fail(id, saved) => FailedRun(w, id, saved)
    case AskDelete(q, id, server) => Asked(w, q, id, server)
    case RemoveFile(q, works) => FileRemoved(w, q, works)
    case RemoveRow(q, works) => RowRemoved(w, q, works)
    case RemoveServer(server) => ServerRemoved(w, server)
    case RemovePolicy(policy) => PolicyRemoved(w, policy)
  }

  function Run(es: seq<Event>): World {
    if es == [] then Start() else Step(Run(es[..|es| - 1]), es[|es| - 1])
  }

  ghost predicate ValidRun(es: seq<Event>) {
    forall i | 0 <= i < |es| :: Enabled(Run(es[..i]), es[i])
  }

  // ---------- the invariant ----------

  /** The row still describes the backup as it was born, but for a policy removed since. */
  predicate Describes(b: Backup, x: Birth) {
    && b == RowOf(x).(status := b.status, driveId := b.driveId, policy := b.policy)
    && (b.policy == None || b.policy == x.policy)
  }

  /** A birth is well named, and a local backup's place is fixed from birth. */
  predicate BirthOk(w: World, id: Id)
    requires id in w.born
  {
    && GoodBirth(w.born[id])
    && (w.born[id].storage == Local ==> id in w.place && w.place[id] == HomeOf(w.born[id]))
    && (w.born[id].storage == GDrive && id in w.place ==> w.place[id].DriveFile?)
  }

  /** The place of `id` is known and is the one that its drive id, if any, names. */
  predicate PlacedAt(w: World, id: Id, b: Backup, driveId: string) {
    id in w.place && (b.storage == GDrive ==> w.place[id] == DriveFile(driveId))
  }

  predicate RowOk(w: World, id: Id)
    requires id in w.store.rows
  {
    var b := w.store.rows[id];
    && id in w.born && Describes(b, w.born[id])
    && (b.status == Completed ==> id in w.uploaded && id !in w.jobs && PlacedAt(w, id, b, b.driveId))
  }

  predicate JobOk(w: World, id: Id)
    requires id in w.jobs
  {
    var b := w.jobs[id].b;
    && id in w.born && Describes(b, w.born[id])
    && id in w.begun
    && (w.jobs[id].Dumping? ==>
          id !in w.uploaded && (b.storage == GDrive ==> id !in w.place) && (id in w.store.rows || id in w.dropped))
    && (w.jobs[id].Uploaded? ==> id in w.uploaded && PlacedAt(w, id, b, w.jobs[id].driveId))
  }

  /** How far `id` has come: born, begun, placed, uploaded, lost; and where its row went. */
  predicate SetsOk(w: World, id: Id) {
    && (id in w.begun ==> id in w.born)
    && (id in w.place ==> id in w.born && (w.born[id].storage == GDrive ==> id in w.begun))
    && (id in w.uploaded ==> id in w.begun && id in w.place)
    && (id in w.lost ==> id in w.uploaded)
    && (id in w.dropped ==> id in w.born && id !in w.store.rows)
    && (id in w.uploaded && id !in w.store.rows ==> id in w.lost || id in w.dropped)
  }

  predicate IdOk(w: World, id: Id) {
    && SetsOk(w, id)
    && (id in w.born ==> BirthOk(w, id))
    && (id in w.store.rows ==> RowOk(w, id))
    && (id in w.jobs ==> JobOk(w, id))
  }

  ghost predicate AllIdsOk(w: World) {
    forall id :: IdOk(w, id)
  }

  /** A deletion has read a row of a stored dump, or has cleared its place already. */
  predicate RequestOk(w: World, r: Request) {
    match r
    case ToFile(id, b) =>
      && id in w.born && Describes(b, w.born[id]) && id in w.uploaded && PlacedAt(w, id, b, b.driveId)
    case ToRow(id, fileRemoved) => fileRemoved ==> id in w.lost
  }

  ghost predicate RequestsOk(w: World) {
    forall q | q in w.requests :: RequestOk(w, w.requests[q])
  }

  /** Only local files are ever shared. */
  ghost predicate DrivesDistinct(w: World) {
    forall i, j | i in w.place && j in w.place && i != j && w.place[i] == w.place[j] :: w.place[i].LocalFile?
  }

  /** The file at `ref` is the dump of `id`. */
  predicate IsDump(s: Store, ref: Ref, id: Id) {
    ref in s.files && s.files[ref] == id
  }

  /** `ref` is the place of `id`, and nothing has happened to the dump stored there. */
  predicate Kept(w: World, ref: Ref, id: Id) {
    id in w.uploaded && id !in w.lost && id in w.place && w.place[id] == ref
  }

  /** The files are exactly the dumps stored and not lost, each at its place. */
  ghost predicate FilesExact(w: World) {
    forall ref, id :: IsDump(w.store, ref, id) <==> Kept(w, ref, id)
  }

  ghost predicate Inv(w: World) {
    AllIdsOk(w) && RequestsOk(w) && DrivesDistinct(w) && FilesExact(w)
  }

  // ---------- names and places ----------

  lemma DestinationIsPlace(b: Backup, x: Birth, driveId: string)
    requires GoodBirth(x) && Describes(b, x)
    ensures Destination(b, driveId) == Ok(if b.storage == GDrive then DriveFile(driveId) else HomeOf(x))
    ensures Locate(b) == Ok(if b.storage == GDrive then DriveFile(b.driveId) else HomeOf(x))
    ensures b.storage == x.storage
  {
    FilenamePlain(x.database, x.now / 1_000_000);
    StoreAndOpenAgree(x.server, Filename(x.database, x.now / 1_000_000));
    hide ResolveBackupPath, FilepathJoin, Filename, LocalPath, PlainName, IsIdent;
  }

  /** Two local backups are stored as one file exactly if server, database and second agree. */
  lemma HomeIff(x: Birth, y: Birth)
    requires GoodBirth(x) && GoodBirth(y)
    ensures HomeOf(x) == HomeOf(y) <==> SameName(x, y)
  {
    if HomeOf(x) == HomeOf(y) {
      LocalPathInjective(x.server, x.database, x.now / 1_000_000, y.server, y.database, y.now / 1_000_000);
    }
  }

  predicate BothLocalSameName(w: World, i: Id, j: Id)
    requires i in w.born && j in w.born
  {
    w.born[i].storage == Local && w.born[j].storage == Local && SameName(w.born[i], w.born[j])
  }

  lemma At(w: World, id: Id)
    requires Inv(w)
    ensures IdOk(w, id)
  {
    hide IdOk;
  }

  lemma SharedPlaceIff(w: World, i: Id, j: Id)
    requires Inv(w) && i in w.place && j in w.place && i != j
    ensures i in w.born && j in w.born
    ensures w.place[i] == w.place[j] <==> BothLocalSameName(w, i, j)
  {
    At(w, i);
    At(w, j);
    HomeIff(w.born[i], w.born[j]);
    assert w.place[i] == w.place[j] ==> w.place[i].LocalFile?;
    hide Inv, HomeOf, GoodBirth, SameName;
  }

  // ---------- a step changes little ----------

  /** All that `IdOk` looks at is as before, except that the dump may have been lost. */
  predicate SameAt(w: World, v: World, id: Id) {
    && (id in w.born <==> id in v.born) && (id in w.born ==> v.born[id] == w.born[id])
    && (id in w.place <==> id in v.place) && (id in w.place ==> v.place[id] == w.place[id])
    && (id in w.store.rows <==> id in v.store.rows) && (id in w.store.rows ==> v.store.rows[id] == w.store.rows[id])
    && (id in w.jobs <==> id in v.jobs) && (id in w.jobs ==> v.jobs[id] == w.jobs[id])
    && (id in w.begun <==> id in v.begun)
    && (id in w.uploaded <==> id in v.uploaded)
    && (id in w.lost ==> id in v.lost) && (id in v.lost ==> id in v.uploaded)
    && (id in w.dropped <==> id in v.dropped)
  }

  lemma SameAtOk(w: World, v: World, id: Id)
    requires IdOk(w, id) && SameAt(w, v, id)
    ensures IdOk(v, id)
  {
    hide Describes, GoodBirth, HomeOf;
  }

  /** Only `id` needs checking. */
  lemma IdFrame(w: World, v: World, id: Id)
    requires Inv(w) && IdOk(v, id) && forall other | other != id :: SameAt(w, v, other)
    ensures AllIdsOk(v)
  {
    forall other ensures IdOk(v, other) {
      if other != id {
        At(w, other);
        hide Inv;
        SameAtOk(w, v, other);
      }
    }
    hide IdOk, SameAt, Inv;
  }

  /** Births, stored dumps and their places, and losses only ever grow. */
  predicate Grows(w: World, v: World) {
    && (forall id | id in w.born :: id in v.born && v.born[id] == w.born[id])
    && (forall id | id in w.uploaded :: id in v.uploaded && id in w.place && id in v.place && v.place[id] == w.place[id])
    && w.lost <= v.lost
  }

  lemma RequestGrows(w: World, v: World, r: Request)
    requires RequestOk(w, r) && Grows(w, v)
    ensures RequestOk(v, r)
  {
    hide Describes;
  }

  /** Requests already under way stay in order; only `q` may be new or have moved on. */
  lemma RequestFrame(w: World, v: World, q: nat)
    requires RequestsOk(w) && Grows(w, v)
    requires forall r | r in v.requests && r != q :: r in w.requests && v.requests[r] == w.requests[r]
    requires q in v.requests ==> RequestOk(v, v.requests[q])
    ensures RequestsOk(v)
  {
    hide RequestOk, Grows;
    forall r | r in v.requests ensures RequestOk(v, v.requests[r]) {
      if r != q { RequestGrows(w, v, w.requests[r]); }
    }
  }

  lemma SameRequests(w: World, v: World)
    requires RequestsOk(w) && Grows(w, v) && v.requests == w.requests
    ensures RequestsOk(v)
  {
    hide RequestOk, Grows;
    forall r | r in v.requests ensures RequestOk(v, v.requests[r]) { RequestGrows(w, v, w.requests[r]); }
  }

  lemma SameFiles(w: World, v: World)
    requires FilesExact(w) && v.store.files == w.store.files
    requires v.uploaded == w.uploaded && v.lost == w.lost
    requires forall id | id in w.uploaded :: id in w.place && id in v.place && v.place[id] == w.place[id]
    ensures FilesExact(v)
  {
    forall ref, id ensures IsDump(v.store, ref, id) <==> Kept(v, ref, id) {
      assert IsDump(w.store, ref, id) <==> Kept(w, ref, id);
    }
  }

  lemma UploadedPlaced(w: World)
    requires Inv(w)
    ensures forall id | id in w.uploaded :: id in w.place && id in w.begun && id in w.born
    ensures w.lost <= w.uploaded
  {
    forall id ensures id in w.uploaded ==> id in w.place && id in w.begun && id in w.born
              ensures id in w.lost ==> id in w.uploaded
    {
      At(w, id);
    }
    hide Inv;
  }

  // ---------- each kind of step keeps the invariant ----------

  lemma DescribesItself(x: Birth)
    ensures Describes(RowOf(x), x) && RowOf(x).status == Running && RowOf(x).storage == x.storage
  {
  }

  /** Status and drive id are no part of the description. */
  lemma DescribesStill(b: Backup, x: Birth, status: Status, driveId: string)
    requires Describes(b, x)
    ensures Describes(b.(status := status, driveId := driveId), x) && b.storage == x.storage
  {
  }

  lemma InsertKeeps(w: World, id: Id, x: Birth)
    requires Inv(w) && id !in w.born && GoodBirth(x)
    ensures Inv(Inserted(w, id, x))
  {
    hide IdOk, FilesExact, RequestsOk, GoodBirth, HomeOf, RowOf;
    var v := Inserted(w, id, x);
    At(w, id);
    UploadedPlaced(w);
    InsertId(w, id, x);
    InsertFrame(w, id, x);
    IdFrame(w, v, id);
    SameFiles(w, v);
    SameRequests(w, v);
    HomeIsLocal(x);
  }

  lemma InsertId(w: World, id: Id, x: Birth)
    requires IdOk(w, id) && id !in w.born && GoodBirth(x)
    ensures IdOk(Inserted(w, id, x), id)
  {
    DescribesItself(x);
    hide Describes, GoodBirth, HomeOf, RowOf;
  }

  lemma HomeIsLocal(x: Birth)
    ensures HomeOf(x).LocalFile?
  {
  }

  lemma InsertFrame(w: World, id: Id, x: Birth)
    requires Inv(w)
    ensures forall other | other != id :: SameAt(w, Inserted(w, id, x), other)
  {
    UploadedPlaced(w);
    hide Inv, RowOf, HomeOf;
  }

  lemma BeginKeeps(w: World, id: Id)
    requires Inv(w) && id in w.store.rows && id !in w.begun
    ensures Inv(Begun(w, id))
  {
    hide IdOk, FilesExact, DrivesDistinct, RequestsOk;
    var v := Begun(w, id);
    At(w, id);
    UploadedPlaced(w);
    BeginId(w, id);
    IdFrame(w, v, id);
    SamePlaces(w, v);
    SameFiles(w, v);
    SameRequests(w, v);
  }

  lemma BeginId(w: World, id: Id)
    requires IdOk(w, id) && id in w.store.rows && id !in w.begun
    ensures IdOk(Begun(w, id), id)
  {
    hide GoodBirth, HomeOf, Describes;
    DescribesStill(w.store.rows[id], w.born[id], Running, "");
  }

  /** The place an upload goes to: fresh for a remote backup, the fixed one for a local backup. */
  lemma UploadPlace(w: World, id: Id, driveId: string)
    requires Inv(w) && id in w.jobs && (w.jobs[id].b.storage == GDrive ==> NewDriveId(w, driveId))
    ensures var b := w.jobs[id].b;
            var dest := Destination(b, driveId);
            && dest.Ok?
            && (b.storage == GDrive ==> dest.value == DriveFile(driveId) && forall j | j in w.place :: w.place[j] != dest.value)
            && (b.storage == Local ==> id in w.place && w.place[id] == dest.value && dest.value.LocalFile?)
  {
    At(w, id);
    DestinationIsPlace(w.jobs[id].b, w.born[id], driveId);
    HomeIsLocal(w.born[id]);
    hide Inv, HomeOf, Destination, Describes, GoodBirth;
  }

  lemma PutKeeps(w: World, id: Id, driveId: string, ref: Ref)
    requires Inv(w) && id in w.jobs && w.jobs[id].Dumping?
    requires if w.jobs[id].b.storage == GDrive
             then ref == DriveFile(driveId) && forall j | j in w.place :: w.place[j] != ref
             else id in w.place && w.place[id] == ref && ref.LocalFile?
    ensures Inv(Put(w, id, driveId, ref))
  {
    hide IdOk, Put, FilesExact, DrivesDistinct, RequestsOk, SameAt, Grows;
    var v := Put(w, id, driveId, ref);
    At(w, id);
    UploadedPlaced(w);
    PutNew(w, id);
    PutId(w, id, driveId, ref);
    PutFiles(w, id, driveId, ref);
    PutDrives(w, id, driveId, ref);
    PutFrame(w, id, driveId, ref);
    SameRequests(w, v);
    IdFrame(w, v, id);
  }

  lemma PutNew(w: World, id: Id)
    requires IdOk(w, id) && id in w.jobs && w.jobs[id].Dumping?
    ensures id !in w.uploaded
  {
    hide SetsOk, BirthOk, RowOk, Describes;
  }

  lemma PutDrives(w: World, id: Id, driveId: string, ref: Ref)
    requires DrivesDistinct(w) && id in w.jobs
    requires ref.LocalFile? || forall j | j in w.place :: w.place[j] != ref
    ensures DrivesDistinct(Put(w, id, driveId, ref))
  {
    hide StoredAt;
  }

  lemma PutFrame(w: World, id: Id, driveId: string, ref: Ref)
    requires id in w.jobs && w.lost <= w.uploaded && forall j | j in w.uploaded :: j in w.place
    requires id !in w.uploaded
    ensures Grows(w, Put(w, id, driveId, ref)) && Put(w, id, driveId, ref).requests == w.requests
    ensures forall other | other != id :: SameAt(w, Put(w, id, driveId, ref), other)
  {
  }

  lemma PutId(w: World, id: Id, driveId: string, ref: Ref)
    requires IdOk(w, id) && id in w.jobs && w.jobs[id].Dumping?
    requires if w.jobs[id].b.storage == GDrive then ref == DriveFile(driveId) else id in w.place && w.place[id] == ref
    ensures IdOk(Put(w, id, driveId, ref), id)
  {
    DescribesStill(w.jobs[id].b, w.born[id], Running, "");
    hide Describes, GoodBirth, HomeOf;
  }

  lemma PutFiles(w: World, id: Id, driveId: string, ref: Ref)
    requires FilesExact(w) && id in w.jobs && id !in w.uploaded && w.lost <= w.uploaded
    requires forall j | j in w.uploaded :: j in w.place
    ensures FilesExact(Put(w, id, driveId, ref))
  {
    var v := Put(w, id, driveId, ref);
    forall at, k ensures IsDump(v.store, at, k) <==> Kept(v, at, k) {
      assert IsDump(w.store, at, k) <==> Kept(w, at, k);
    }
  }

  lemma FinishKeeps(w: World, v: World, id: Id)
    requires Inv(w) && IdOk(v, id) && v == w.(store := v.store, jobs := w.jobs - {id})
    requires v.store.files == w.store.files && v.store.rows.Keys == w.store.rows.Keys
    requires forall other | other in w.store.rows && other != id :: v.store.rows[other] == w.store.rows[other]
    ensures Inv(v)
  {
    hide IdOk, FilesExact, DrivesDistinct, RequestsOk;
    UploadedPlaced(w);
    SamePlaces(w, v);
    SameFiles(w, v);
    SameRequests(w, v);
    IdFrame(w, v, id);
  }

  lemma CompleteKeeps(w: World, id: Id)
    requires Inv(w) && id in w.jobs && w.jobs[id].Uploaded?
    ensures Inv(Finished(w, id))
  {
    At(w, id);
    hide Inv;
    DescribesStill(w.jobs[id].b, w.born[id], Running, "");
    if id in w.store.rows {
      var b := w.store.rows[id];
      DescribesStill(b, w.born[id], Completed, if b.storage == GDrive then w.jobs[id].driveId else "");
    }
    hide Describes, HomeOf, GoodBirth;
    assert IdOk(Finished(w, id), id);
    hide IdOk;
    FinishKeeps(w, Finished(w, id), id);
  }

  lemma FailKeeps(w: World, id: Id, saved: bool)
    requires Inv(w) && id in w.jobs
    ensures Inv(FailedRun(w, id, saved))
  {
    At(w, id);
    hide Inv;
    if id in w.store.rows {
      DescribesStill(w.store.rows[id], w.born[id], Failed, w.store.rows[id].driveId);
    }
    hide Describes, HomeOf, GoodBirth;
    assert IdOk(FailedRun(w, id, saved), id);
    hide IdOk;
    FinishKeeps(w, FailedRun(w, id, saved), id);
  }

  /** A completed row names its own place. */
  lemma LocatedAtPlace(w: World, id: Id)
    requires Inv(w) && id in w.store.rows && w.store.rows[id].status == Completed
    ensures id in w.uploaded && id in w.place && id in w.born && Locate(w.store.rows[id]) == Ok(w.place[id])
  {
    At(w, id);
    DestinationIsPlace(w.store.rows[id], w.born[id], "");
    hide Inv, HomeOf, Describes, GoodBirth, Locate;
  }

  lemma AskKeeps(w: World, q: nat, id: Id, server: string)
    requires Inv(w) && q !in w.requests
    ensures Inv(Asked(w, q, id, server))
  {
    hide FilesExact, DrivesDistinct, Grows, SameAt, IdOk, RequestOk, Asked;
    var v := Asked(w, q, id, server);
    UploadedPlaced(w);
    AskedIs(w, q, id, server);
    AskedRequest(w, q, id, server);
    SameFiles(w, v);
    SamePlaces(w, v);
    RequestFrame(w, v, q);
    SameIds(w, v);
  }

  lemma SamePlaces(w: World, v: World)
    requires DrivesDistinct(w) && v.place == w.place
    ensures DrivesDistinct(v)
  {
  }

  lemma AskedIs(w: World, q: nat, id: Id, server: string)
    requires q !in w.requests && w.lost <= w.uploaded && forall j | j in w.uploaded :: j in w.place
    ensures var v := Asked(w, q, id, server);
            && v == w.(requests := v.requests)
            && Grows(w, v) && (forall k :: SameAt(w, v, k))
            && forall r | r in v.requests && r != q :: r in w.requests && v.requests[r] == w.requests[r]
  {
  }

  lemma AskedRequest(w: World, q: nat, id: Id, server: string)
    requires Inv(w) && q !in w.requests
    ensures var v := Asked(w, q, id, server); q in v.requests ==> RequestOk(v, v.requests[q])
  {
    At(w, id);
    hide Inv, Describes, GoodBirth, HomeOf;
  }

  lemma SameIds(w: World, v: World)
    requires AllIdsOk(w) && forall id :: SameAt(w, v, id)
    ensures AllIdsOk(v)
  {
    hide IdOk, SameAt;
    forall id ensures IdOk(v, id) { SameAtOk(w, v, id); }
  }

  lemma RequestForget(w: World, q: nat)
    requires Inv(w)
    ensures Inv(w.(requests := w.requests - {q}))
  {
    var v := w.(requests := w.requests - {q});
    hide FilesExact, DrivesDistinct;
    UploadedPlaced(w);
    SamePlaces(w, v);
    SameFiles(w, v);
    RequestFrame(w, v, q);
    hide RequestsOk;
    SameIds(w, v);
  }

  /** The row that a deletion has read names the place of its dump. */
  lemma RequestPlace(w: World, q: nat)
    requires Inv(w) && q in w.requests && w.requests[q].ToFile?
    ensures var id := w.requests[q].id;
            id in w.born && id in w.uploaded && id in w.place && Locate(w.requests[q].b) == Ok(w.place[id])
  {
    var id, b := w.requests[q].id, w.requests[q].b;
    assert RequestOk(w, w.requests[q]);
    At(w, id);
    DestinationIsPlace(b, w.born[id], "");
    hide Inv, HomeOf, Describes, GoodBirth, Locate;
  }

  lemma ClearIds(w: World, q: nat, ref: Ref)
    requires q in w.requests && w.lost <= w.uploaded
    ensures forall id :: SameAt(w, Cleared(w, q, ref), id)
    ensures (forall id | id in w.uploaded :: id in w.place) ==> Grows(w, Cleared(w, q, ref))
  {
  }

  lemma ClearKeeps(w: World, q: nat, ref: Ref)
    requires Inv(w) && q in w.requests && w.requests[q].id in w.uploaded
    requires w.requests[q].id in w.place && w.place[w.requests[q].id] == ref
    ensures Inv(Cleared(w, q, ref))
  {
    var v := Cleared(w, q, ref);
    UploadedPlaced(w);
    ClearRest(w, q, ref);
    ClearIds(w, q, ref);
    hide FilesExact, DrivesDistinct, Grows, SameAt, IdOk, RequestOk, Cleared, RequestsOk;
    SameIds(w, v);
  }

  lemma ClearedIs(w: World, q: nat, ref: Ref)
    requires q in w.requests && w.requests[q].id in w.uploaded
    requires w.requests[q].id in w.place && w.place[w.requests[q].id] == ref
    ensures var v := Cleared(w, q, ref);
            && v.place == w.place && v.uploaded == w.uploaded && v.lost == w.lost + StoredAt(w, ref)
            && v.store.files == w.store.files - {ref}
            && q in v.requests && RequestOk(v, v.requests[q])
            && forall r | r in v.requests && r != q :: r in w.requests && v.requests[r] == w.requests[r]
  {
  }

  lemma ClearRest(w: World, q: nat, ref: Ref)
    requires Inv(w) && q in w.requests && w.requests[q].id in w.uploaded
    requires w.requests[q].id in w.place && w.place[w.requests[q].id] == ref
    ensures var v := Cleared(w, q, ref); DrivesDistinct(v) && FilesExact(v) && RequestsOk(v)
  {
    hide SameAt, AllIdsOk, Grows, Cleared, RequestOk, StoredAt, FilesExact, RequestsOk;
    var v := Cleared(w, q, ref);
    UploadedPlaced(w);
    ClearIds(w, q, ref);
    ClearedIs(w, q, ref);
    RemovedFiles(w, v, ref);
    RequestFrame(w, v, q);
  }

  lemma RemoveRowKeeps(w: World, v: World, id: Id, fileRemoved: bool)
    requires Inv(w) && id in w.store.rows && (fileRemoved ==> id in w.lost)
    requires v == w.(store := w.store.(rows := w.store.rows - {id}),
                     dropped := if fileRemoved then w.dropped else w.dropped + {id})
    ensures Inv(v)
  {
    hide IdOk, FilesExact, DrivesDistinct, RequestsOk;
    At(w, id);
    UploadedPlaced(w);
    RemovedRowOk(w, v, id, fileRemoved);
    SamePlaces(w, v);
    SameFiles(w, v);
    SameRequests(w, v);
    IdFrame(w, v, id);
  }

  lemma RemovedRowOk(w: World, v: World, id: Id, fileRemoved: bool)
    requires IdOk(w, id) && id in w.store.rows && (fileRemoved ==> id in w.lost)
    requires v == w.(store := w.store.(rows := w.store.rows - {id}),
                     dropped := if fileRemoved then w.dropped else w.dropped + {id})
    ensures IdOk(v, id)
  {
    hide Describes, HomeOf, GoodBirth;
  }

  lemma RowStepKeeps(w: World, q: nat, works: bool)
    requires Inv(w) && q in w.requests && w.requests[q].ToRow?
    ensures Inv(RowRemoved(w, q, works))
  {
    assert RequestOk(w, w.requests[q]);
    hide Inv;
    RequestForget(w, q);
    var v := w.(requests := w.requests - {q});
    var id := w.requests[q].id;
    if works && id in w.store.rows {
      RemoveRowKeeps(v, RowRemoved(w, q, works), id, w.requests[q].fileRemoved);
    }
  }

  lemma ServerKeeps(w: World, server: string)
    requires Inv(w)
    ensures Inv(ServerRemoved(w, server))
  {
    hide IdOk, FilesExact, DrivesDistinct, RequestsOk;
    var v := ServerRemoved(w, server);
    UploadedPlaced(w);
    SamePlaces(w, v);
    SameFiles(w, v);
    SameRequests(w, v);
    forall id ensures IdOk(v, id) {
      At(w, id);
      ServerId(w, server, id);
    }
  }

  lemma ServerId(w: World, server: string, id: Id)
    requires IdOk(w, id)
    ensures IdOk(ServerRemoved(w, server), id)
  {
    hide Describes, HomeOf, GoodBirth;
  }

  lemma PolicyKeeps(w: World, policy: Id)
    requires Inv(w)
    ensures Inv(PolicyRemoved(w, policy))
  {
    hide IdOk, FilesExact, DrivesDistinct, RequestsOk;
    var v := PolicyRemoved(w, policy);
    UploadedPlaced(w);
    SamePlaces(w, v);
    SameFiles(w, v);
    SameRequests(w, v);
    forall id ensures IdOk(v, id) {
      At(w, id);
      PolicyId(w, policy, id);
    }
  }

  lemma PolicyId(w: World, policy: Id, id: Id)
    requires IdOk(w, id)
    ensures IdOk(PolicyRemoved(w, policy), id)
  {
    hide Describes, HomeOf, GoodBirth, WithoutPolicy;
    if id in w.store.rows { DescribesWithout(w.store.rows[id], w.born[id], policy); }
  }

  lemma DescribesWithout(b: Backup, x: Birth, policy: Id)
    requires Describes(b, x)
    ensures var c := WithoutPolicy(b, policy);
            Describes(c, x) && c.status == b.status && c.driveId == b.driveId && c.storage == b.storage
  {
  }

  lemma RemovedFiles(w: World, v: World, ref: Ref)
    requires FilesExact(w) && v.store.files == w.store.files - {ref}
    requires v.uploaded == w.uploaded && v.place == w.place && v.lost == w.lost + StoredAt(w, ref)
    ensures FilesExact(v)
  {
    forall at, k ensures IsDump(v.store, at, k) <==> Kept(v, at, k) {
      assert IsDump(w.store, at, k) <==> Kept(w, at, k);
    }
  }

  lemma StartInv()
    ensures Inv(Start())
  {
  }

  lemma StepKeepsInv(w: World, e: Event)
    requires Inv(w) && Enabled(w, e)
    ensures Inv(Step(w, e))
  {
    hide Inv, Inserted, Begun, Finished, FailedRun, Asked, RowRemoved, ServerRemoved, PolicyRemoved;
    match e
    case Insert(id, x) => InsertKeeps(w, id, x);
    case Begin(id) => BeginKeeps(w, id);
    case Upload(id, driveId) =>
      UploadPlace(w, id, driveId);
      hide Destination, Put;
      PutKeeps(w, id, driveId, Destination(w.jobs[id].b, driveId).value);
    case Complete(id) => CompleteKeeps(w, id);
    case Fail(id, saved) => FailKeeps(w, id, saved);
    case AskDelete(q, id, server) => AskKeeps(w, q, id, server);
    case RemoveFile(q, works) =>
      RequestPlace(w, q);
      hide Locate, Cleared;
      if works { ClearKeeps(w, q, w.place[w.requests[q].id]); } else { RequestForget(w, q); }
    case RemoveRow(q, works) => RowStepKeeps(w, q, works);
    case RemoveServer(server) => ServerKeeps(w, server);
    case RemovePolicy(policy) => PolicyKeeps(w, policy);
  }

  /** Main result: whatever interleaving, the files are exactly the dumps stored and not lost, and rows,
      runs, deletions under way and places agree with the births. */
  lemma {:induction false} RunKeepsInv(es: seq<Event>)
    requires ValidRun(es)
    ensures Inv(Run(es))
  {
    hide Step, Inv, Enabled, Start;
    StartInv();
    if es != [] {
      var init, e := es[..|es| - 1], es[|es| - 1];
      assert forall i | 0 <= i < |init| :: init[..i] == es[..i];
      RunKeepsInv(init);
      StepKeepsInv(Run(init), e);
    }
  }
}
