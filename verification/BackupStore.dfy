/** Backup rows and backup files: inserting, running, deleting, opening and retention. */
module BackupStore {
  import opened Wrappers
  import opened BackupNames

  /** Row ids are UUIDs, read as numbers. */
  type Id = nat

  datatype Storage = Local | GDrive

  datatype Status = Running | Completed | Failed

  datatype Backup = Backup(server: string, policy: Option<Id>, database: string, storage: Storage,
                           filename: string, status: Status, driveId: string, startedAt: int)

  /** Where a dump lies: a path of the local volume or a file id of the remote drive. */
  datatype Ref = LocalFile(path: string) | DriveFile(id: string)

  /** A file's content stands for the backup whose dump it is. */
  datatype Store = Store(rows: map<Id, Backup>, files: map<Ref, Id>)

  /** `storageRef` followed by the path resolution of Open and Delete. */
  function Locate(b: Backup): Result<Ref, ()> {
    if b.storage == GDrive then Ok(DriveFile(b.driveId))
    else
      var path := ResolveBackupPath([FilepathJoin([b.server, b.filename])]);
      if path.Err? then Err(()) else Ok(LocalFile(path.value))
  }

  /** The destination that Store moves the dump to. */
  function Destination(b: Backup, driveId: string): Result<Ref, ()> {
    if b.storage == GDrive then Ok(DriveFile(driveId))
    else
      var path := ResolveBackupPath([b.server, b.filename]);
      if path.Err? then Err(()) else Ok(LocalFile(path.value))
  }

  // ---------- effects ----------

  function NewBackup(server: string, policy: Option<Id>, database: string, storage: Storage, now: nat): Backup {
    Backup(server, policy, database, storage, Filename(database, now / 1_000_000), Running, "", now)
  }

  function Placed(s: Store, id: Id, ref: Ref): Store {
    s.(files := s.files[ref := id])
  }

  function MarkedCompleted(s: Store, id: Id, driveId: string): Store {
    if id !in s.rows then s
    else
      var b := s.rows[id];
      s.(rows := s.rows[id := b.(status := Completed, driveId := if b.storage == GDrive then driveId else "")])
  }

  function MarkedFailed(s: Store, id: Id): Store {
    if id !in s.rows then s else s.(rows := s.rows[id := s.rows[id].(status := Failed)])
  }

  /** FileFails: storage.Delete reports an error. RowFails: the file is gone but the row is not. */
  datatype DeleteOutcome = FileFails | RowFails | Deletes

  function Deleted(s: Store, server: string, id: Id, outcome: DeleteOutcome): Store {
    if id !in s.rows || s.rows[id].server != server then s
    else if s.rows[id].status != Completed then
      if outcome == RowFails then s else s.(rows := s.rows - {id})
    else
      var ref := Locate(s.rows[id]);
      if ref.Err? || outcome == FileFails then s
      else
        var noFile := s.(files := s.files - {ref.value});
        if outcome == RowFails then noFile else noFile.(rows := s.rows - {id})
  }

  /** How a run ends. StatFails and UpdateFails leave the file in place and the row failed. */
  datatype RunOutcome = ServerGone | DumpFails | StoreFails | StatFails(ref: string) | UpdateFails(ref: string) | Succeeds(ref: string)

  function Fails(s: Store, id: Id, marked: bool): Store {
    if marked then MarkedFailed(s, id) else s
  }

  /** What a run that nothing interrupts leaves: the dump at its destination unless the run failed before
      storing it, and a completed or failed row unless even the failure could not be saved. */
  function Performed(s: Store, id: Id, outcome: RunOutcome, marked: bool): Store {
    if id !in s.rows || outcome == ServerGone then s
    else if outcome == DumpFails || outcome == StoreFails then Fails(s, id, marked)
    else
      var dest := Destination(s.rows[id], outcome.ref);
      if dest.Err? then Fails(s, id, marked)
      else if !outcome.Succeeds? then Fails(Placed(s, id, dest.value), id, marked)
      else MarkedCompleted(Placed(s, id, dest.value), id, outcome.ref)
  }

  datatype Error = NotFound | NotReady | StorageError | RunFailed

  class BackupService {
    var store: Store

    constructor ()
      ensures store == Store(map[], map[])
    {
      store := Store(map[], map[]);
    }

    method InsertBackup(id: Id, server: string, policy: Option<Id>, database: string, storage: Storage, now: nat)
      requires id !in store.rows
      modifies this
      ensures store == old(store).(rows := old(store).rows[id := NewBackup(server, policy, database, storage, now)])
    {
      var filename := database + "_" + Stamp(now / 1_000_000) + ".dump";
      store := store.(rows := store.rows[id := Backup(server, policy, database, storage, filename, Running, "", now)]);
    }

    /** `performBackup` without interruption. A path that does not resolve fails like any Store error; `marked`
        says whether a failure reaches the row, which otherwise stays running. */
    method PerformBackup(id: Id, outcome: RunOutcome, marked: bool) returns (r: Result<(), Error>)
      modifies this
      ensures r.Ok? <==> id in old(store).rows && outcome.Succeeds? && Destination(old(store).rows[id], outcome.ref).Ok?
      ensures store == Performed(old(store), id, outcome, marked)
    {
      if id !in store.rows { return Err(NotFound); }
      if outcome == ServerGone { return Err(RunFailed); }
      var b := store.rows[id];
      if outcome == DumpFails || outcome == StoreFails {
        MarkBackupFailed(id, marked);
        return Err(RunFailed);
      }
      var dest := Destination(b, outcome.ref);
      if dest.Err? {
        MarkBackupFailed(id, marked);
        return Err(RunFailed);
      }
      store := store.(files := store.files[dest.value := id]);
      if !outcome.Succeeds? {
        MarkBackupFailed(id, marked);
        return Err(RunFailed);
      }
      var done := store.rows[id];
      done := done.(status := Completed, driveId := if b.storage == GDrive then outcome.ref else "");
      store := store.(rows := store.rows[id := done]);
      return Ok(());
    }

    method MarkBackupFailed(id: Id, marked: bool)
      modifies this
      ensures store == if marked then MarkedFailed(old(store), id) else old(store)
    {
      if marked && id in store.rows {
        store := store.(rows := store.rows[id := store.rows[id].(status := Failed)]);
      }
    }

    method DeleteBackup(server: string, id: Id, outcome: DeleteOutcome) returns (r: Result<(), Error>)
      modifies this
      ensures store == Deleted(old(store), server, id, outcome)
      ensures r.Ok? <==> id in old(store).rows && id !in store.rows
      ensures id !in old(store).rows || old(store).rows[id].server != server ==> r == Err(NotFound)
    {
      if id !in store.rows { return Err(NotFound); }
      var b := store.rows[id];
      if b.server != server { return Err(NotFound); }
      if b.status == Completed {
        var ref := Locate(b);
        if ref.Err? || outcome == FileFails { return Err(StorageError); }
        store := store.(files := store.files - {ref.value});
      }
      if outcome == RowFails { return Err(StorageError); }
      store := store.(rows := store.rows - {id});
      return Ok(());
    }

    /** The file that a download or a restore opens. */
    method OpenBackup(server: string, id: Id) returns (r: Result<Ref, Error>)
      ensures r.Ok? <==> && id in store.rows && store.rows[id].server == server && store.rows[id].status == Completed
                         && Locate(store.rows[id]).Ok? && Locate(store.rows[id]).value in store.files
      ensures r.Ok? ==> Ok(r.value) == Locate(store.rows[id])
    {
      if id !in store.rows || store.rows[id].server != server { return Err(NotFound); }
      var b := store.rows[id];
      if b.status != Completed { return Err(NotReady); }
      var ref := Locate(b);
      if ref.Err? || ref.value !in store.files { return Err(StorageError); }
      return Ok(ref.value);
    }

    /** `listing` is the policy's completed backups, newest first, as the query orders them; `outcomes`
        says how each deletion ends. */
    method ApplyBackupRetention(policy: Id, server: string, keep: nat, listing: seq<Id>, outcomes: map<Id, DeleteOutcome>)
      requires IsListing(store.rows, policy, listing) && forall id | id in listing :: id in outcomes
      modifies this
      ensures store == DeletedAll(old(store), server, if keep <= |listing| then listing[keep..] else [], outcomes)
    {
      var toDelete := if keep <= |listing| then listing[keep..] else [];
      ghost var before := store;
      for i := 0 to |toDelete|
        invariant store == DeletedAll(before, server, toDelete[..i], outcomes)
      {
        assert toDelete[..i + 1][..i] == toDelete[..i];
        assert toDelete[i] in listing;
        var r := DeleteBackup(server, toDelete[i], outcomes[toDelete[i]]);
      }
      assert toDelete[..|toDelete|] == toDelete;
    }
  }

  // ---------- retention ----------

  predicate OfPolicy(b: Backup, policy: Id) {
    b.policy == Some(policy) && b.status == Completed
  }

  /** A result of the retention query before OFFSET: each completed backup of the policy once, in
      descending order of start. Ties may come in any order. */
  ghost predicate IsListing(rows: map<Id, Backup>, policy: Id, listing: seq<Id>) {
    && (forall id :: id in listing <==> id in rows && OfPolicy(rows[id], policy))
    && (forall i, j | 0 <= i < j < |listing| :: listing[i] != listing[j])
    && (forall i, j | 0 <= i < j < |listing| :: rows[listing[i]].startedAt >= rows[listing[j]].startedAt)
  }

  function DeletedAll(s: Store, server: string, ids: seq<Id>, outcomes: map<Id, DeleteOutcome>): Store {
    if ids == [] then s
    else
      var n := |ids| - 1;
      Deleted(DeletedAll(s, server, ids[..n], outcomes), server, ids[n],
              if ids[n] in outcomes then outcomes[ids[n]] else FileFails)
  }

  /** Deleting several rows whose deletions all succeed removes exactly those rows and their files. */
  lemma {:induction false} DeletedAllRows(s: Store, server: string, ids: seq<Id>, outcomes: map<Id, DeleteOutcome>)
    requires forall i, j | 0 <= i < j < |ids| :: ids[i] != ids[j]
    requires forall id | id in ids ::
               && id in s.rows && s.rows[id].server == server && s.rows[id].status == Completed && Locate(s.rows[id]).Ok?
               && id in outcomes && outcomes[id] == Deletes
    ensures forall id :: id in DeletedAll(s, server, ids, outcomes).rows <==> id in s.rows && id !in ids
    ensures forall id | id in DeletedAll(s, server, ids, outcomes).rows :: DeletedAll(s, server, ids, outcomes).rows[id] == s.rows[id]
    ensures forall ref :: ref in DeletedAll(s, server, ids, outcomes).files <==>
              ref in s.files && forall id | id in ids :: Locate(s.rows[id]) != Ok(ref)
    ensures forall ref | ref in DeletedAll(s, server, ids, outcomes).files :: DeletedAll(s, server, ids, outcomes).files[ref] == s.files[ref]
  {
    hide Locate;
    if ids != [] {
      var n := |ids| - 1;
      assert ids == ids[..n] + [ids[n]];
      assert ids[n] in ids && ids[n] !in ids[..n];
      DeletedAllRows(s, server, ids[..n], outcomes);
    }
  }

  /** What a listing's first `cut` ids mean. */
  ghost predicate KeepsNewest(before: map<Id, Backup>, after: map<Id, Backup>, policy: Id, kept: seq<Id>) {
    && (forall id :: id in after && OfPolicy(after[id], policy) <==> id in kept)
    && (forall id, gone | id in kept && id in before && gone in before && OfPolicy(before[gone], policy) && gone !in kept ::
          before[id].startedAt >= before[gone].startedAt)
    && (forall id | id in before && !OfPolicy(before[id], policy) :: id in after && after[id] == before[id])
    && (forall id | id in after :: id in before && after[id] == before[id])
  }

  lemma ListingCut(rows: map<Id, Backup>, policy: Id, listing: seq<Id>, cut: nat)
    requires IsListing(rows, policy, listing) && cut <= |listing|
    ensures forall id :: id in listing <==> id in listing[..cut] || id in listing[cut..]
    ensures forall id :: !(id in listing[..cut] && id in listing[cut..])
    ensures forall id, gone | id in listing[..cut] && gone in listing[cut..] :: rows[id].startedAt >= rows[gone].startedAt
  {
    assert listing == listing[..cut] + listing[cut..];
  }

  /** Main result: when its deletions succeed, retention leaves exactly the newest `keep` completed
      backups of the policy (all of them if there are fewer), nothing kept is older than anything
      deleted, and every other row, manual backups and other policies' included, is as before. */
  lemma RetentionKeepsNewest(s: Store, policy: Id, server: string, keep: nat, listing: seq<Id>, outcomes: map<Id, DeleteOutcome>)
    requires IsListing(s.rows, policy, listing)
    requires forall id | id in listing ::
               s.rows[id].server == server && Locate(s.rows[id]).Ok? && id in outcomes && outcomes[id] == Deletes
    ensures var kept := if keep <= |listing| then listing[..keep] else listing;
            var after := DeletedAll(s, server, if keep <= |listing| then listing[keep..] else [], outcomes);
            |kept| == (if keep <= |listing| then keep else |listing|) && KeepsNewest(s.rows, after.rows, policy, kept)
  {
    var cut := if keep <= |listing| then keep else |listing|;
    assert keep > |listing| ==> listing[..cut] == listing && listing[cut..] == [];
    ListingCut(s.rows, policy, listing, cut);
    DeletedAllRows(s, server, listing[cut..], outcomes);
    hide Locate, DeletedAll;
    CutMeaning(s.rows, DeletedAll(s, server, listing[cut..], outcomes).rows, policy, listing, cut);
  }

  lemma CutMeaning(before: map<Id, Backup>, after: map<Id, Backup>, policy: Id, listing: seq<Id>, cut: nat)
    requires IsListing(before, policy, listing) && cut <= |listing|
    requires forall id :: id in after <==> id in before && id !in listing[cut..]
    requires forall id | id in after :: after[id] == before[id]
    ensures KeepsNewest(before, after, policy, listing[..cut])
  {
    ListingCut(before, policy, listing, cut);
    var kept, gone := listing[..cut], listing[cut..];
    assert forall id :: id in kept || id in gone <==> id in before && OfPolicy(before[id], policy);
    hide IsListing;
  }

  /** A policy run's own backup survives the retention that follows it: a policy keeps at least one, and
      the newest is listed first. */
  lemma NewestIsKept(rows: map<Id, Backup>, policy: Id, keep: nat, listing: seq<Id>, id: Id)
    requires IsListing(rows, policy, listing) && keep > 0 && id in rows && OfPolicy(rows[id], policy)
    requires forall j | j in rows && j != id && OfPolicy(rows[j], policy) :: rows[j].startedAt < rows[id].startedAt
    ensures id !in (if keep <= |listing| then listing[keep..] else [])
  {
    var k :| 0 <= k < |listing| && listing[k] == id;
    assert listing[0] in listing;
    assert listing[0] == id;
    if keep <= |listing| {
      forall i | keep <= i < |listing| ensures listing[i] != id { assert listing[i] != listing[0]; }
    }
  }
}
