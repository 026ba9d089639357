/** What the invariant of all backup interleavings means for the user: which backups open, which files stay. */
module BackupOutcomes {
  import opened Wrappers
  import opened BackupNames
  import opened BackupStore
  import opened BackupRuns

  predicate IsCompleted(w: World, id: Id) {
    id in w.store.rows && w.store.rows[id].status == Completed
  }

  /** On every run a completed backup opens its own dump if and only if that dump has not been lost; what it
      opens otherwise, if anything, is the dump of a local backup of the same name. */
  lemma CompletedOpensOwnFile(es: seq<Event>, id: Id)
    requires ValidRun(es) && IsCompleted(Run(es), id)
    ensures var w := Run(es);
            var ref := Locate(w.store.rows[id]);
            && ref.Ok?
            && (IsDump(w.store, ref.value, id) <==> id !in w.lost)
            && (ref.value in w.store.files ==>
                  var owner := w.store.files[ref.value];
                  owner == id || (owner in w.born && id in w.born && BothLocalSameName(w, owner, id)))
  {
    RunKeepsInv(es);
    var w := Run(es);
    hide Run;
    LocatedAtPlace(w, id);
    var ref := w.place[id];
    assert IsDump(w.store, ref, id) <==> Kept(w, ref, id);
    if ref in w.store.files && w.store.files[ref] != id {
      assert IsDump(w.store, ref, w.store.files[ref]) <==> Kept(w, ref, w.store.files[ref]);
      hide Inv, Locate;
      SharedPlaceIff(w, w.store.files[ref], id);
    }
    hide Inv, Locate;
  }

  /** The event stores another dump under the name of `id`. */
  predicate Overwrites(w: World, e: Event, id: Id) {
    e.Upload? && e.id != id && e.id in w.born && id in w.born && BothLocalSameName(w, e.id, id)
  }

  /** The event removes the file of `id`, or of a local backup of the same name. */
  predicate RemovesItsFile(w: World, e: Event, id: Id) {
    && e.RemoveFile? && e.works && e.request in w.requests && w.requests[e.request].ToFile?
    && var k := w.requests[e.request].id;
       k == id || (k in w.born && id in w.born && BothLocalSameName(w, k, id))
  }

  /** A stored dump is lost by exactly the events that overwrite or remove it. */
  lemma LostBecause(es: seq<Event>, e: Event, id: Id)
    requires ValidRun(es) && Enabled(Run(es), e)
    requires id in Run(es).uploaded && id !in Run(es).lost
    ensures id in Run(es + [e]).lost <==> Overwrites(Run(es), e, id) || RemovesItsFile(Run(es), e, id)
  {
    var w := Run(es);
    RunKeepsInv(es);
    RunAppend(es, e);
    UploadedPlaced(w);
    hide Run, ValidRun, Inv, Locate, Destination, StoredAt;
    if e.Upload? {
      OverwritesIff(w, e.id, e.driveId, id);
    } else if e.RemoveFile? {
      DeletionStepIs(w, e);
      RemovesIff(w, e, id);
    }
    hide UploadedTo, FileRemoved, BothLocalSameName, Enabled;
  }

  lemma RemovesIff(w: World, e: Event, id: Id)
    requires Inv(w) && e.RemoveFile? && Enabled(w, e) && id in w.uploaded && id !in w.lost
    ensures id in FileRemoved(w, e.request, e.works).lost <==> RemovesItsFile(w, e, id)
  {
    RequestPlace(w, e.request);
    UploadedPlaced(w);
    var k := w.requests[e.request].id;
    if k != id { SharedPlaceIff(w, k, id); }
    hide Inv, Locate, BothLocalSameName;
  }

  lemma OverwritesIff(w: World, i: Id, driveId: string, id: Id)
    requires Inv(w) && Enabled(w, Upload(i, driveId)) && id in w.uploaded && id !in w.lost
    ensures id in UploadedTo(w, i, driveId).lost <==> Overwrites(w, Upload(i, driveId), id)
  {
    assert i in w.jobs && w.jobs[i].Dumping? && (w.jobs[i].b.storage == GDrive ==> NewDriveId(w, driveId));
    hide Inv, Enabled, Destination, UploadedTo, BothLocalSameName;
    UploadPlace(w, i, driveId);
    UploadedPlaced(w);
    UploaderBorn(w, i);
    var ref := Destination(w.jobs[i].b, driveId).value;
    UploadIs(w, i, driveId, ref);
    if w.born[i].storage == Local {
      if i != id { SharedPlaceIff(w, i, id); }
    } else {
      RemoteApart(w, i, id);
    }
  }

  lemma UploaderBorn(w: World, i: Id)
    requires Inv(w) && i in w.jobs && w.jobs[i].Dumping?
    ensures i in w.born && w.jobs[i].b.storage == w.born[i].storage && i !in w.uploaded
  {
    At(w, i);
    hide Inv, SetsOk, BirthOk, RowOk;
  }

  lemma RemoteApart(w: World, i: Id, id: Id)
    requires i in w.born && id in w.born && w.born[i].storage == GDrive
    ensures !BothLocalSameName(w, i, id)
  {
  }

  /** The row that the step removes. */
  predicate RemovesItsRow(w: World, e: Event, id: Id) {
    && e.RemoveRow? && e.works && e.request in w.requests && w.requests[e.request].ToRow?
    && w.requests[e.request].id == id
  }

  predicate RowTouched(w: World, v: World, other: Id) {
    other in w.store.rows && !(other in v.store.rows && v.store.rows[other] == w.store.rows[other])
  }

  lemma DeletionStepIs(w: World, e: Event)
    ensures e.AskDelete? ==> Step(w, e) == Asked(w, e.request, e.id, e.server)
    ensures e.RemoveFile? ==> Step(w, e) == FileRemoved(w, e.request, e.works)
    ensures e.RemoveRow? ==> Step(w, e) == RowRemoved(w, e.request, e.works)
  {
    hide Inserted, Begun, UploadedTo, Finished, FailedRun, Asked, FileRemoved, RowRemoved, ServerRemoved, PolicyRemoved;
  }

  lemma AskTouches(w: World, q: nat, id: Id, server: string)
    ensures Asked(w, q, id, server).store == w.store
  {
  }

  lemma FileStep(w: World, q: nat, works: bool)
    requires Inv(w) && q in w.requests && w.requests[q].ToFile?
    ensures var k := w.requests[q].id;
            && k in w.place && k in w.uploaded && k in w.born
            && FileRemoved(w, q, works).store
               == if works then w.store.(files := w.store.files - {w.place[k]}) else w.store
  {
    hide Inv, Locate, StoredAt;
    RequestPlace(w, q);
  }

  lemma DumpAt(w: World, ref: Ref, other: Id)
    requires Inv(w) && IsDump(w.store, ref, other)
    ensures other in w.place && w.place[other] == ref
  {
    assert IsDump(w.store, ref, other) <==> Kept(w, ref, other);
    hide AllIdsOk, RequestsOk, DrivesDistinct, FilesExact;
  }

  lemma FileTouches(w: World, q: nat, works: bool, other: Id, ref: Ref)
    requires Inv(w) && q in w.requests && w.requests[q].ToFile?
    ensures FileRemoved(w, q, works).store.rows == w.store.rows
    ensures IsDump(w.store, ref, other) ==>
              (!IsDump(FileRemoved(w, q, works).store, ref, other) <==> RemovesItsFile(w, RemoveFile(q, works), other))
  {
    hide Inv, FileRemoved, BothLocalSameName;
    FileStep(w, q, works);
    if IsDump(w.store, ref, other) {
      DumpAt(w, ref, other);
      if w.requests[q].id != other { SharedPlaceIff(w, w.requests[q].id, other); }
    }
  }

  lemma RowTouches(w: World, q: nat, works: bool, other: Id)
    requires q in w.requests && w.requests[q].ToRow?
    ensures RowRemoved(w, q, works).store.files == w.store.files
    ensures RowTouched(w, RowRemoved(w, q, works), other)
       <==> other in w.store.rows && RemovesItsRow(w, RemoveRow(q, works), other)
  {
  }

  /** The steps of a deletion remove the row asked for and touch no other, and they remove exactly the dumps
      stored under the name of the backup whose file they remove. */
  lemma DeleteTouchesIff(es: seq<Event>, e: Event, other: Id, ref: Ref)
    requires ValidRun(es) && Enabled(Run(es), e) && (e.AskDelete? || e.RemoveFile? || e.RemoveRow?)
    ensures var w, v := Run(es), Run(es + [e]);
            && (RowTouched(w, v, other) <==> other in w.store.rows && RemovesItsRow(w, e, other))
            && (IsDump(w.store, ref, other) ==> (!IsDump(v.store, ref, other) <==> RemovesItsFile(w, e, other)))
  {
    var w := Run(es);
    assert e.RemoveFile? ==> e.request in w.requests && w.requests[e.request].ToFile?;
    assert e.RemoveRow? ==> e.request in w.requests && w.requests[e.request].ToRow?;
    hide Run, ValidRun, Inv, Enabled, Step, RemovesItsFile, RemovesItsRow, IsDump, Asked, FileRemoved, RowRemoved;
    RunKeepsInv(es);
    RunAppend(es, e);
    DeletionStepIs(w, e);
    NotRemovesFile(w, e, other);
    NotRemovesRow(w, e, other);
    if e.AskDelete? {
      AskTouches(w, e.request, e.id, e.server);
    } else if e.RemoveFile? {
      assert e == RemoveFile(e.request, e.works);
      FileTouches(w, e.request, e.works, other, ref);
    } else {
      assert e == RemoveRow(e.request, e.works);
      RowTouches(w, e.request, e.works, other);
    }
  }

  lemma NotRemovesFile(w: World, e: Event, other: Id)
    ensures !e.RemoveFile? ==> !RemovesItsFile(w, e, other)
  {
  }

  lemma NotRemovesRow(w: World, e: Event, other: Id)
    ensures !e.RemoveRow? ==> !RemovesItsRow(w, e, other)
  {
  }

  /** A file without a row is the dump, not lost since, of a backup whose row went with its server, or by a
      deletion that had read it before it had completed; and every such dump is one. */
  lemma OrphanIff(es: seq<Event>, id: Id)
    requires ValidRun(es)
    ensures (id !in Run(es).store.rows && exists ref :: IsDump(Run(es).store, ref, id))
       <==> id in Run(es).dropped && id in Run(es).uploaded && id !in Run(es).lost
  {
    RunKeepsInv(es);
    var w := Run(es);
    hide Run;
    At(w, id);
    if id in w.uploaded {
      assert IsDump(w.store, w.place[id], id) <==> Kept(w, w.place[id], id);
    }
    forall ref ensures IsDump(w.store, ref, id) <==> Kept(w, ref, id) {
    }
    hide Inv, BirthOk, RowOk, JobOk;
  }

  /** The event takes the row of `id` and leaves its file: the deletion of its server, or the last step of a
      deletion that had read the row before it had completed. */
  predicate TakesOnlyRow(w: World, e: Event, id: Id)
    requires id in w.store.rows
  {
    || e == RemoveServer(w.store.rows[id].server)
    || (e.RemoveRow? && e.works && e.request in w.requests && w.requests[e.request] == ToRow(id, false))
  }

  lemma RowKept(w: World, e: Event, id: Id)
    requires id in w.store.rows && !e.RemoveServer? && !e.RemoveRow?
    ensures id in Step(w, e).store.rows
  {
    hide Destination, Locate, StoredAt, HomeOf, RowOf;
  }

  lemma RowTaken(w: World, e: Event, id: Id)
    requires Inv(w) && Enabled(w, e) && id in w.store.rows && id !in w.lost && (e.RemoveServer? || e.RemoveRow?)
    ensures id !in Step(w, e).store.rows <==> TakesOnlyRow(w, e, id)
    ensures Step(w, e).store.files == w.store.files
  {
    assert e.RemoveRow? ==> RequestOk(w, w.requests[e.request]);
    hide Inv;
  }

  /** A backup with its dump in place becomes an orphan by exactly those events. */
  lemma OrphanedBy(es: seq<Event>, e: Event, id: Id)
    requires ValidRun(es) && Enabled(Run(es), e)
    requires id in Run(es).store.rows && id in Run(es).uploaded && id !in Run(es).lost
    ensures (id !in Run(es + [e]).store.rows && exists ref :: IsDump(Run(es + [e]).store, ref, id))
       <==> TakesOnlyRow(Run(es), e, id)
  {
    var w := Run(es);
    RunKeepsInv(es);
    RunAppend(es, e);
    UploadedPlaced(w);
    var ref := w.place[id];
    assert IsDump(w.store, ref, id) <==> Kept(w, ref, id);
    hide Run, ValidRun, Inv, Enabled, Step;
    if e.RemoveServer? || e.RemoveRow? {
      RowTaken(w, e, id);
      assert IsDump(Step(w, e).store, ref, id) <==> IsDump(w.store, ref, id);
    } else {
      RowKept(w, e, id);
    }
  }

  /** Two completed backups name one file exactly if both are local and of the same name. */
  lemma SharedFileIff(es: seq<Event>, i: Id, j: Id)
    requires ValidRun(es) && i != j && IsCompleted(Run(es), i) && IsCompleted(Run(es), j)
    ensures var w := Run(es);
            && i in w.born && j in w.born
            && (Locate(w.store.rows[i]) == Locate(w.store.rows[j]) <==> BothLocalSameName(w, i, j))
  {
    RunKeepsInv(es);
    var w := Run(es);
    hide Run, Locate, Inv;
    LocatedAtPlace(w, i);
    LocatedAtPlace(w, j);
    SharedPlaceIff(w, i, j);
  }

  // ---------- retention ----------

  lemma GoneDistinct(rows: map<Id, Backup>, policy: Id, listing: seq<Id>, cut: nat)
    requires IsListing(rows, policy, listing) && cut <= |listing|
    ensures forall i, j | 0 <= i < j < |listing[cut..]| :: listing[cut..][i] != listing[cut..][j]
    ensures forall g | g in listing[cut..] :: g in listing && g in rows && rows[g].status == Completed
  {
  }

  /** Some deleted backup was stored under the name of `id`. */
  predicate SharesWith(w: World, gone: seq<Id>, id: Id) {
    exists g :: g in gone && g in w.born && id in w.born && BothLocalSameName(w, g, id)
  }

  lemma RetainedIff(es: seq<Event>, server: string, gone: seq<Id>, outcomes: map<Id, DeleteOutcome>, id: Id)
    requires ValidRun(es) && forall i, j | 0 <= i < j < |gone| :: gone[i] != gone[j]
    requires forall g | g in gone :: IsCompleted(Run(es), g) && Run(es).store.rows[g].server == server
               && g in outcomes && outcomes[g] == Deletes
    requires IsCompleted(Run(es), id) && id !in gone
    ensures var w := Run(es);
            var ref := Locate(w.store.rows[id]);
            && ref.Ok?
            && (IsDump(DeletedAll(w.store, server, gone, outcomes), ref.value, id)
                <==> id !in w.lost && !SharesWith(w, gone, id))
  {
    var w := Run(es);
    hide Run, ValidRun, Locate, DeletedAll, BothLocalSameName;
    CompletedOpensOwnFile(es, id);
    forall g | g in gone
      ensures Locate(w.store.rows[g]).Ok? && g in w.born && id in w.born
      ensures Locate(w.store.rows[g]) == Locate(w.store.rows[id]) <==> BothLocalSameName(w, g, id)
    {
      CompletedOpensOwnFile(es, g);
      SharedFileIff(es, g, id);
    }
    DeletedAllRows(w.store, server, gone, outcomes);
  }

  /** Retention on any reachable state: the newest backups of the policy stay, the rest of the policy's go,
      and each remaining completed backup opens its own dump exactly if it did before and no deleted one was
      stored under its name. */
  lemma RetentionAfterRun(es: seq<Event>, policy: Id, server: string, keep: nat, listing: seq<Id>,
                          outcomes: map<Id, DeleteOutcome>)
    requires ValidRun(es) && IsListing(Run(es).store.rows, policy, listing)
    requires forall id | id in listing ::
               Run(es).store.rows[id].server == server && id in outcomes && outcomes[id] == Deletes
    ensures var w := Run(es);
            var cut := if keep <= |listing| then keep else |listing|;
            var after := DeletedAll(w.store, server, listing[cut..], outcomes);
            && KeepsNewest(w.store.rows, after.rows, policy, listing[..cut])
            && forall id | IsCompleted(w, id) && id !in listing[cut..] ::
                 Locate(w.store.rows[id]).Ok?
                 && (IsDump(after, Locate(w.store.rows[id]).value, id)
                     <==> id !in w.lost && !SharesWith(w, listing[cut..], id))
  {
    var w := Run(es);
    var cut := if keep <= |listing| then keep else |listing|;
    var gone := listing[cut..];
    assert keep > |listing| ==> gone == [] && listing[..cut] == listing;
    forall id | IsCompleted(w, id) ensures Locate(w.store.rows[id]).Ok? {
      CompletedOpensOwnFile(es, id);
    }
    assert forall id | id in listing :: IsCompleted(w, id);
    RetentionKeepsNewest(w.store, policy, server, keep, listing, outcomes);
    GoneDistinct(w.store.rows, policy, listing, cut);
    hide Run, ValidRun, Locate, DeletedAll, IsListing, SharesWith, IsDump;
    forall id | IsCompleted(w, id) && id !in gone
      ensures Locate(w.store.rows[id]).Ok?
           && (IsDump(DeletedAll(w.store, server, gone, outcomes), Locate(w.store.rows[id]).value, id)
               <==> id !in w.lost && !SharesWith(w, gone, id))
    {
      RetainedIff(es, server, gone, outcomes, id);
    }
  }

  // ---------- particular runs ----------

  lemma RunAppend(es: seq<Event>, e: Event)
    requires ValidRun(es) && Enabled(Run(es), e)
    ensures Run(es + [e]) == Step(Run(es), e) && ValidRun(es + [e])
  {
    hide Step, Enabled;
    assert (es + [e])[..|es|] == es;
    assert forall i | 0 <= i < |es| :: (es + [e])[..i] == es[..i];
  }

  lemma RunFour(es: seq<Event>, e1: Event, e2: Event, e3: Event, e4: Event)
    requires ValidRun(es) && Enabled(Run(es), e1) && Enabled(Step(Run(es), e1), e2)
    requires Enabled(Step(Step(Run(es), e1), e2), e3) && Enabled(Step(Step(Step(Run(es), e1), e2), e3), e4)
    ensures ValidRun(es + [e1, e2, e3, e4])
    ensures Run(es + [e1, e2, e3, e4]) == Step(Step(Step(Step(Run(es), e1), e2), e3), e4)
  {
    hide Run, ValidRun, Step, Enabled;
    RunAppend(es, e1);
    RunAppend(es + [e1], e2);
    RunAppend(es + [e1] + [e2], e3);
    RunAppend(es + [e1] + [e2] + [e3], e4);
    assert es + [e1, e2, e3, e4] == es + [e1] + [e2] + [e3] + [e4];
  }

  function Lifecycle(id: Id, x: Birth, driveId: string): seq<Event> {
    [Insert(id, x), Begin(id), Upload(id, driveId), Complete(id)]
  }

  function DoneRow(x: Birth, driveId: string): Backup {
    RowOf(x).(status := Completed, driveId := if x.storage == GDrive then driveId else "")
  }

  /** Where an undisturbed backup is stored. */
  function EndPlace(x: Birth, driveId: string): Ref {
    if x.storage == GDrive then DriveFile(driveId) else HomeOf(x)
  }

  function AfterLifecycle(w: World, id: Id, x: Birth, driveId: string): World {
    Finished(UploadedTo(Begun(Inserted(w, id, x), id), id, driveId), id)
  }

  lemma BegunIs(w: World, id: Id, x: Birth)
    ensures var v := Begun(Inserted(w, id, x), id);
            && v.store == Store(w.store.rows[id := RowOf(x)], w.store.files)
            && v.jobs == w.jobs[id := Dumping(RowOf(x))] && v.born == w.born[id := x]
  {
    hide RowOf, HomeOf;
  }

  lemma UploadIs(w: World, id: Id, driveId: string, ref: Ref)
    requires id in w.jobs && Destination(w.jobs[id].b, driveId) == Ok(ref)
    ensures var v := UploadedTo(w, id, driveId);
            && v == Put(w, id, driveId, ref)
            && v.store == Store(w.store.rows, w.store.files[ref := id])
            && v.jobs == w.jobs[id := Uploaded(w.jobs[id].b, driveId)] && v.born == w.born
  {
    hide Destination, StoredAt;
  }

  lemma FinishedIs(w: World, id: Id)
    requires id in w.jobs && w.jobs[id].Uploaded?
    ensures Finished(w, id).store == MarkedCompleted(w.store, id, w.jobs[id].driveId)
    ensures Finished(w, id).jobs == w.jobs - {id} && Finished(w, id).born == w.born
  {
    hide MarkedCompleted;
  }

  lemma LifecycleUpload(w: World, id: Id, x: Birth, driveId: string)
    requires GoodBirth(x)
    ensures var v := UploadedTo(Begun(Inserted(w, id, x), id), id, driveId);
            && v.jobs == w.jobs[id := Uploaded(RowOf(x), driveId)]
            && v.store == Store(w.store.rows[id := RowOf(x)], w.store.files[EndPlace(x, driveId) := id])
            && v.born == w.born[id := x]
  {
    DescribesItself(x);
    hide Destination, HomeOf, GoodBirth, RowOf, Describes, Inserted, Begun, UploadedTo, Put;
    DestinationIsPlace(RowOf(x), x, driveId);
    BegunIs(w, id, x);
    UploadIs(Begun(Inserted(w, id, x), id), id, driveId, EndPlace(x, driveId));
  }

  lemma LifecycleEnd(w: World, id: Id, x: Birth, driveId: string)
    requires GoodBirth(x)
    ensures var v := AfterLifecycle(w, id, x, driveId);
            && v.store == Store(w.store.rows[id := DoneRow(x, driveId)], w.store.files[EndPlace(x, driveId) := id])
            && v.born == w.born[id := x]
  {
    DescribesItself(x);
    hide Inserted, Begun, UploadedTo, Finished, EndPlace, GoodBirth, RowOf, Describes;
    LifecycleUpload(w, id, x, driveId);
    FinishedIs(UploadedTo(Begun(Inserted(w, id, x), id), id, driveId), id);
  }

  lemma LifecycleEnabled(w: World, id: Id, x: Birth, driveId: string)
    requires GoodBirth(x) && id !in w.begun && (x.storage == GDrive ==> NewDriveId(w, driveId))
    ensures var w1 := Inserted(w, id, x);
            var w2 := Begun(w1, id);
            var w3 := UploadedTo(w2, id, driveId);
            Enabled(w1, Begin(id)) && Enabled(w2, Upload(id, driveId)) && Enabled(w3, Complete(id))
  {
    DescribesItself(x);
    hide UploadedTo, EndPlace, GoodBirth, RowOf, Describes, HomeOf;
    LifecycleUpload(w, id, x, driveId);
  }

  lemma LifecycleSteps(w: World, id: Id, x: Birth, driveId: string)
    ensures Step(w, Insert(id, x)) == Inserted(w, id, x)
    ensures Step(Inserted(w, id, x), Begin(id)) == Begun(Inserted(w, id, x), id)
    ensures var v := Begun(Inserted(w, id, x), id); Step(v, Upload(id, driveId)) == UploadedTo(v, id, driveId)
    ensures var v := UploadedTo(Begun(Inserted(w, id, x), id), id, driveId); Step(v, Complete(id)) == Finished(v, id)
  {
    hide Inserted, Begun, UploadedTo, Finished;
  }

  lemma DoneLocated(x: Birth, driveId: string)
    requires GoodBirth(x)
    ensures Locate(DoneRow(x, driveId)) == Ok(EndPlace(x, driveId))
  {
    DestinationIsPlace(DoneRow(x, driveId), x, driveId);
    hide Locate, HomeOf, GoodBirth;
  }

  lemma FreshId(es: seq<Event>, id: Id)
    requires ValidRun(es) && id !in Run(es).born
    ensures id !in Run(es).begun
  {
    RunKeepsInv(es);
    At(Run(es), id);
    hide Run, Inv;
  }

  /** Progress: from every reachable state an undisturbed backup runs through all its steps and ends as a
      completed row that opens its own dump, and nothing but its own row and file has changed. */
  lemma UndisturbedBackupCompletes(es: seq<Event>, id: Id, x: Birth, driveId: string)
    requires ValidRun(es) && Enabled(Run(es), Insert(id, x))
    requires x.storage == GDrive ==> NewDriveId(Run(es), driveId)
    ensures ValidRun(es + Lifecycle(id, x, driveId))
    ensures var before, after := Run(es), Run(es + Lifecycle(id, x, driveId));
            && after.store == Store(before.store.rows[id := DoneRow(x, driveId)],
                                    before.store.files[EndPlace(x, driveId) := id])
            && after.born == before.born[id := x]
    ensures Locate(DoneRow(x, driveId)) == Ok(EndPlace(x, driveId))
  {
    var w := Run(es);
    Enables(w, id, x);
    FreshId(es, id);
    hide Run, ValidRun, Enabled, Step, Inserted, Begun, UploadedTo, Finished, Locate, RowOf, GoodBirth, NewDriveId,
      DoneRow, EndPlace;
    LifecycleSteps(w, id, x, driveId);
    LifecycleEnabled(w, id, x, driveId);
    LifecycleEnd(w, id, x, driveId);
    DoneLocated(x, driveId);
    RunFour(es, Insert(id, x), Begin(id), Upload(id, driveId), Complete(id));
  }

  lemma Enables(w: World, id: Id, x: Birth)
    ensures Enabled(w, Insert(id, x)) <==> id !in w.born && GoodBirth(x)
  {
  }

  lemma FileTaken(s: Store, i: Id, j: Id, x: Birth, y: Birth)
    requires i in s.rows && i != j && s.rows[i] == DoneRow(x, "")
    requires GoodBirth(x) && GoodBirth(y) && x.storage == Local && y.storage == Local && SameName(x, y)
    ensures var after := Store(s.rows[j := DoneRow(y, "")], s.files[EndPlace(y, "") := j]);
            && after.rows[i].status == Completed && after.rows[j].status == Completed
            && Locate(after.rows[i]).Ok? && IsDump(after, Locate(after.rows[i]).value, j)
  {
    HomeIff(x, y);
    SamePlace(x, y);
    DoneRowIs(x);
    DoneRowIs(y);
    DoneLocated(x, "");
    hide Locate, DoneRow, GoodBirth, HomeOf, EndPlace;
  }

  /** After a run that left a completed local backup `i`, a second one of its name takes its file. */
  lemma TakesFile(half: seq<Event>, i: Id, j: Id, x: Birth, y: Birth)
    requires ValidRun(half) && Enabled(Run(half), Insert(j, y)) && i != j
    requires GoodBirth(x) && x.storage == Local && y.storage == Local && SameName(x, y)
    requires i in Run(half).store.rows && Run(half).store.rows[i] == DoneRow(x, "")
    ensures var run := half + Lifecycle(j, y, "");
            && ValidRun(run)
            && IsCompleted(Run(run), i) && IsCompleted(Run(run), j)
            && Locate(Run(run).store.rows[i]).Ok? && IsDump(Run(run).store, Locate(Run(run).store.rows[i]).value, j)
  {
    hide Run, ValidRun, Enabled, Lifecycle, Locate, DoneRow, GoodBirth, SameName, EndPlace, IsDump;
    Enables(Run(half), j, y);
    FileTaken(Run(half).store, i, j, x, y);
    UndisturbedBackupCompletes(half, j, y, "");
  }

  /** Two backups of one database within a second, such as two policies with one slot: both complete, one
      file is left, and the first row opens the second dump. */
  lemma SecondBackupTakesFile(es: seq<Event>, i: Id, j: Id, x: Birth, y: Birth)
    requires ValidRun(es) && Enabled(Run(es), Insert(i, x)) && Enabled(Run(es), Insert(j, y)) && i != j
    requires x.storage == Local && y.storage == Local && SameName(x, y)
    ensures var run := es + Lifecycle(i, x, "") + Lifecycle(j, y, "");
            && ValidRun(run)
            && IsCompleted(Run(run), i) && IsCompleted(Run(run), j)
            && Locate(Run(run).store.rows[i]).Ok? && IsDump(Run(run).store, Locate(Run(run).store.rows[i]).value, j)
  {
    hide Run, ValidRun, Enabled, Lifecycle, Locate, DoneRow, GoodBirth, EndPlace, IsCompleted, IsDump, SameName;
    var half := es + Lifecycle(i, x, "");
    Enables(Run(es), j, y);
    Enables(Run(es), i, x);
    UndisturbedBackupCompletes(es, i, x, "");
    Enables(Run(half), j, y);
    TakesFile(half, i, j, x, y);
  }

  lemma SamePlace(x: Birth, y: Birth)
    requires x.storage == Local && y.storage == Local && HomeOf(x) == HomeOf(y)
    ensures EndPlace(x, "") == EndPlace(y, "")
  {
    hide HomeOf;
  }

  lemma DoneRowIs(x: Birth)
    ensures DoneRow(x, "").status == Completed
  {
  }

  /** The same, from nothing: two backups of database "d" in the first second of 1970. */
  lemma FirstTwoBackups()
    ensures var x := Birth("s", None, "d", Local, 0);
            var run := Lifecycle(1, x, "") + Lifecycle(2, x, "");
            && ValidRun(run) && IsCompleted(Run(run), 1) && Locate(Run(run).store.rows[1]).Ok?
            && IsDump(Run(run).store, Locate(Run(run).store.rows[1]).value, 2)
  {
    var x := Birth("s", None, "d", Local, 0);
    assert CivilOf(0).year == 1970;
    assert GoodBirth(x);
    assert [] + Lifecycle(1, x, "") == Lifecycle(1, x, "");
    hide GoodBirth, Lifecycle, Locate;
    SecondBackupTakesFile([], 1, 2, x, x);
  }

  /** A backup whose row was deleted while it was being dumped always leaves its file behind when the
      run ends well: the final UPDATE finds no row and nobody notices. */
  lemma DeletedWhileRunningLeavesFile(es: seq<Event>, id: Id, driveId: string)
    requires ValidRun(es) && id !in Run(es).store.rows && Enabled(Run(es), Upload(id, driveId))
    ensures ValidRun(es + [Upload(id, driveId)] + [Complete(id)])
    ensures var w := Run(es + [Upload(id, driveId)] + [Complete(id)]);
            id !in w.store.rows && id !in w.jobs && exists ref :: IsDump(w.store, ref, id)
  {
    hide Run, ValidRun, Inv, Enabled, UploadedTo, Finished, IsDump;
    var w := Run(es);
    RunKeepsInv(es);
    UploadWithoutRow(w, id, driveId);
    var v := UploadedTo(w, id, driveId);
    RunAppend(es, Upload(id, driveId));
    RunAppend(es + [Upload(id, driveId)], Complete(id));
  }

  lemma UploadWithoutRow(w: World, id: Id, driveId: string)
    requires Inv(w) && id !in w.store.rows && Enabled(w, Upload(id, driveId))
    ensures var v := UploadedTo(w, id, driveId);
            && Enabled(v, Complete(id))
            && id !in Finished(v, id).store.rows && id !in Finished(v, id).jobs
            && exists ref :: IsDump(Finished(v, id).store, ref, id)
  {
    hide Inv, Destination, UploadedTo, Finished, Put;
    UploadPlace(w, id, driveId);
    var ref := Destination(w.jobs[id].b, driveId).value;
    UploadIs(w, id, driveId, ref);
    var v := UploadedTo(w, id, driveId);
    FinishedIs(v, id);
    assert IsDump(Finished(v, id).store, ref, id);
  }

  // ---------- orphans ----------

  /** Deleting a server leaves the file of each of its completed backups behind, and no row. */
  lemma ServerDeletionOrphans(es: seq<Event>, id: Id, server: string)
    requires ValidRun(es) && IsCompleted(Run(es), id) && id !in Run(es).lost
    requires Run(es).store.rows[id].server == server
    ensures ValidRun(es + [RemoveServer(server)])
    ensures var w := Run(es + [RemoveServer(server)]);
            id !in w.store.rows && exists ref :: IsDump(w.store, ref, id)
  {
    hide Run, ValidRun, Locate, BothLocalSameName;
    CompletedOpensOwnFile(es, id);
    RunAppend(es, RemoveServer(server));
    var ref := Locate(Run(es).store.rows[id]).value;
    assert IsDump(Run(es + [RemoveServer(server)]).store, ref, id);
  }

  /** A deletion that reads the row just before the backup completes removes the row of a completed backup and
      leaves its file. */
  lemma DeletionRacesCompletion(es: seq<Event>, q: nat, id: Id)
    requires ValidRun(es) && q !in Run(es).requests && id in Run(es).store.rows
    requires id in Run(es).jobs && Run(es).jobs[id].Uploaded? && id !in Run(es).lost
    ensures var server := Run(es).store.rows[id].server;
            var all := es + [AskDelete(q, id, server), Complete(id)];
            && ValidRun(all) && IsCompleted(Run(all), id)
            && ValidRun(all + [RemoveRow(q, true)])
            && var w := Run(all + [RemoveRow(q, true)]);
               id !in w.store.rows && exists ref :: IsDump(w.store, ref, id)
  {
    hide Run, ValidRun, Inv, Enabled, Step, IsCompleted, IsDump;
    var w := Run(es);
    var server := w.store.rows[id].server;
    var e1, e2, e3 := AskDelete(q, id, server), Complete(id), RemoveRow(q, true);
    RunKeepsInv(es);
    RaceSteps(w, q, id);
    RunAppend(es, e1);
    RunAppend(es + [e1], e2);
    assert es + [e1] + [e2] == es + [e1, e2];
    RunAppend(es + [e1, e2], e3);
  }

  lemma RaceSteps(w: World, q: nat, id: Id)
    requires Inv(w) && q !in w.requests && id in w.store.rows
    requires id in w.jobs && w.jobs[id].Uploaded? && id !in w.lost
    ensures var e1, e2, e3 := AskDelete(q, id, w.store.rows[id].server), Complete(id), RemoveRow(q, true);
            var w1 := Step(w, e1);
            var w2 := Step(w1, e2);
            var w3 := Step(w2, e3);
            && Enabled(w, e1) && Enabled(w1, e2) && IsCompleted(w2, id) && Enabled(w2, e3)
            && id !in w3.store.rows && exists ref :: IsDump(w3.store, ref, id)
  {
    At(w, id);
    var ref := w.place[id];
    assert IsDump(w.store, ref, id) <==> Kept(w, ref, id);
    hide Inv, Describes, GoodBirth, HomeOf;
    var w1 := Asked(w, q, id, w.store.rows[id].server);
    assert w1.requests[q] == ToRow(id, false) && w1.store == w.store && w1.jobs == w.jobs;
    var w2 := Finished(w1, id);
    assert w2.requests == w1.requests && w2.store.files == w.store.files;
    assert IsDump(RowRemoved(w2, q, true).store, ref, id);
  }

  // ---------- a backup run that nothing interrupts ----------

  /** How far a run gets with each outcome. */
  function PerformSteps(w: World, id: Id, outcome: RunOutcome, marked: bool): seq<Event> {
    if id !in w.store.rows || outcome == ServerGone then []
    else if outcome == DumpFails || outcome == StoreFails then [Begin(id), Fail(id, marked)]
    else if outcome.Succeeds? then [Begin(id), Upload(id, outcome.ref), Complete(id)]
    else [Begin(id), Upload(id, outcome.ref), Fail(id, marked)]
  }

  /** The run may begin, and the remote drive would give its file a new id. */
  ghost predicate MayPerform(w: World, id: Id, outcome: RunOutcome) {
    id in w.store.rows ==>
      && id !in w.begun
      && (w.store.rows[id].storage == GDrive && Stores(outcome) ==> NewDriveId(w, outcome.ref))
  }

  lemma BeginStep(w: World, id: Id)
    requires id in w.store.rows && id !in w.begun
    ensures Enabled(w, Begin(id))
    ensures var v := Step(w, Begin(id));
            && v == Begun(w, id) && v.store == w.store && v.place == w.place
            && id in v.jobs && v.jobs[id] == Dumping(w.store.rows[id]) && Enabled(v, Fail(id, true)) && Enabled(v, Fail(id, false))
  {
  }

  lemma UploadStep(w: World, id: Id, driveId: string)
    requires Inv(w) && id in w.jobs && w.jobs[id].Dumping?
    requires w.jobs[id].b.storage == GDrive ==> NewDriveId(w, driveId)
    ensures Enabled(w, Upload(id, driveId)) && Destination(w.jobs[id].b, driveId).Ok?
    ensures var v, ref := Step(w, Upload(id, driveId)), Destination(w.jobs[id].b, driveId).value;
            && v.store == Placed(w.store, id, ref)
            && id in v.jobs && v.jobs[id] == Uploaded(w.jobs[id].b, driveId)
  {
    UploadPlace(w, id, driveId);
    hide Inv, Destination, UploadedTo;
    UploadIs(w, id, driveId, Destination(w.jobs[id].b, driveId).value);
  }

  lemma LastSteps(w: World, id: Id, marked: bool)
    requires id in w.jobs
    ensures Enabled(w, Fail(id, marked)) && Step(w, Fail(id, marked)).store == Fails(w.store, id, marked)
    ensures w.jobs[id].Uploaded? ==>
              Enabled(w, Complete(id)) && Step(w, Complete(id)).store == MarkedCompleted(w.store, id, w.jobs[id].driveId)
  {
    hide MarkedCompleted, MarkedFailed;
  }

  /** The run as one operation is the run of its steps with nothing in between, for every outcome; on a reachable
      state its destination always resolves. */
  lemma PerformIsItsSteps(es: seq<Event>, id: Id, outcome: RunOutcome, marked: bool)
    requires ValidRun(es) && MayPerform(Run(es), id, outcome)
    ensures var steps := PerformSteps(Run(es), id, outcome, marked);
            ValidRun(es + steps) && Run(es + steps).store == Performed(Run(es).store, id, outcome, marked)
  {
    hide Run, ValidRun, Inv, Enabled, Step, Placed, MarkedCompleted, MarkedFailed, Destination, NewDriveId, Fails;
    var w := Run(es);
    if id !in w.store.rows || outcome == ServerGone {
      assert es + [] == es;
    } else {
      BeginStep(w, id);
      RunAppend(es, Begin(id));
      var begun := es + [Begin(id)];
      if outcome == DumpFails || outcome == StoreFails {
        LastSteps(Run(begun), id, marked);
        RunAppend(begun, Fail(id, marked));
        assert begun + [Fail(id, marked)] == es + [Begin(id), Fail(id, marked)];
      } else {
        RunKeepsInv(begun);
        SameDriveIds(w, Run(begun), outcome.ref);
        UploadStep(Run(begun), id, outcome.ref);
        RunAppend(begun, Upload(id, outcome.ref));
        var stored := begun + [Upload(id, outcome.ref)];
        LastSteps(Run(stored), id, marked);
        var last := if outcome.Succeeds? then Complete(id) else Fail(id, marked);
        RunAppend(stored, last);
        assert stored + [last] == es + [Begin(id), Upload(id, outcome.ref), last];
      }
    }
  }

  lemma SameDriveIds(w: World, v: World, driveId: string)
    requires v.place == w.place
    ensures NewDriveId(v, driveId) <==> NewDriveId(w, driveId)
  {
  }

  predicate Stores(outcome: RunOutcome) {
    outcome.StatFails? || outcome.UpdateFails? || outcome.Succeeds?
  }

  function DoneWith(b: Backup, driveId: string): Backup {
    b.(status := Completed, driveId := if b.storage == GDrive then driveId else "")
  }

  lemma DestinationKept(b: Backup, x: Birth, driveId: string)
    requires GoodBirth(x) && Describes(b, x)
    ensures Destination(b, driveId) == Ok(EndPlace(x, driveId)) && Locate(DoneWith(b, driveId)) == Ok(EndPlace(x, driveId))
  {
    var done := DoneWith(b, driveId);
    DescribesStill(b, x, Completed, done.driveId);
    hide Destination, Locate, Describes, GoodBirth, HomeOf;
    DestinationIsPlace(b, x, driveId);
    DestinationIsPlace(done, x, driveId);
  }

  lemma PerformedRow(s: Store, id: Id, outcome: RunOutcome, marked: bool)
    requires id in s.rows && (Stores(outcome) ==> Destination(s.rows[id], outcome.ref).Ok?)
    ensures var after := Performed(s, id, outcome, marked);
            && after.rows == s.rows[id := if outcome.Succeeds? then DoneWith(s.rows[id], outcome.ref)
                                          else if marked && outcome != ServerGone then s.rows[id].(status := Failed)
                                          else s.rows[id]]
            && after.files == if Stores(outcome) then s.files[Destination(s.rows[id], outcome.ref).value := id] else s.files
  {
    hide Destination;
  }

  /** What such a run leaves: after a success a completed row that opens its own dump; after a failure a failed
      row, or one still running if the failure was not saved; the dump at its place unless the run failed before
      storing it; and nothing else changed. */
  lemma PerformLeaves(es: seq<Event>, id: Id, outcome: RunOutcome, marked: bool)
    requires ValidRun(es) && id in Run(es).store.rows
    ensures var before, after := Run(es).store, Performed(Run(es).store, id, outcome, marked);
            && id in Run(es).born
            && after.rows == before.rows[id := if outcome.Succeeds? then DoneWith(before.rows[id], outcome.ref)
                                               else if marked && outcome != ServerGone then before.rows[id].(status := Failed)
                                               else before.rows[id]]
            && after.files == (if Stores(outcome) then before.files[EndPlace(Run(es).born[id], outcome.ref) := id]
                               else before.files)
            && (outcome.Succeeds? ==>
                  Locate(after.rows[id]).Ok? && IsDump(after, Locate(after.rows[id]).value, id))
  {
    var w := Run(es);
    RunKeepsInv(es);
    At(w, id);
    hide Run, ValidRun, Inv, Describes, GoodBirth, HomeOf, EndPlace, Performed, Destination, Locate;
    if Stores(outcome) { DestinationKept(w.store.rows[id], w.born[id], outcome.ref); }
    PerformedRow(w.store, id, outcome, marked);
  }

  // ---------- a deletion that nothing interrupts ----------

  /** How far a deletion gets with each outcome. */
  function DeletionSteps(w: World, q: nat, id: Id, server: string, outcome: DeleteOutcome): seq<Event>
  {
    if id !in w.store.rows || w.store.rows[id].server != server then [AskDelete(q, id, server)]
    else if w.store.rows[id].status != Completed then
      [AskDelete(q, id, server), RemoveRow(q, outcome != RowFails)]
    else if outcome == FileFails then [AskDelete(q, id, server), RemoveFile(q, false)]
    else [AskDelete(q, id, server), RemoveFile(q, true), RemoveRow(q, outcome != RowFails)]
  }

  function StepAll(w: World, steps: seq<Event>): World
    decreases |steps|
  {
    if steps == [] then w else StepAll(Step(w, steps[0]), steps[1..])
  }

  lemma StepTwo(w: World, e1: Event, e2: Event)
    ensures StepAll(w, [e1, e2]) == Step(Step(w, e1), e2)
  {
    hide Step;
    assert [e1, e2][1..] == [e2];
    StepOne(Step(w, e1), e2);
  }

  lemma StepThree(w: World, e1: Event, e2: Event, e3: Event)
    ensures StepAll(w, [e1, e2, e3]) == Step(Step(Step(w, e1), e2), e3)
  {
    hide Step;
    assert [e1, e2, e3][1..] == [e2, e3];
    StepTwo(Step(w, e1), e2, e3);
  }

  lemma CompletedDeletion(w: World, q: nat, id: Id, server: string, outcome: DeleteOutcome)
    requires id in w.store.rows && w.store.rows[id].server == server && w.store.rows[id].status == Completed
    requires Locate(w.store.rows[id]).Ok?
    ensures var v := Step(Asked(w, q, id, server), RemoveFile(q, outcome != FileFails));
            && (outcome == FileFails ==> v.store == Deleted(w.store, server, id, outcome))
            && (outcome != FileFails ==>
                  Step(v, RemoveRow(q, outcome != RowFails)).store == Deleted(w.store, server, id, outcome))
  {
    hide Locate, StoredAt;
  }

  lemma PendingDeletion(w: World, q: nat, id: Id, server: string, outcome: DeleteOutcome)
    requires id in w.store.rows && w.store.rows[id].server == server && w.store.rows[id].status != Completed
    ensures Step(Asked(w, q, id, server), RemoveRow(q, outcome != RowFails)).store == Deleted(w.store, server, id, outcome)
  {
    hide Locate;
  }

  /** The deletion as one operation is the run of its steps with nothing in between. */
  lemma DeletionIsItsSteps(es: seq<Event>, q: nat, id: Id, server: string, outcome: DeleteOutcome)
    requires ValidRun(es)
    ensures var steps := DeletionSteps(Run(es), q, id, server, outcome);
            StepAll(Run(es), steps).store == Deleted(Run(es).store, server, id, outcome)
  {
    hide Run, ValidRun, Inv, Locate, StepAll, DeletionSteps;
    var w := Run(es);
    RunKeepsInv(es);
    if id in w.store.rows && w.store.rows[id].server == server && w.store.rows[id].status == Completed {
      LocatedAtPlace(w, id);
    }
    DeletionOf(w, q, id, server, outcome);
  }

  lemma DeletionOf(w: World, q: nat, id: Id, server: string, outcome: DeleteOutcome)
    requires IsCompleted(w, id) && w.store.rows[id].server == server ==> Locate(w.store.rows[id]).Ok?
    ensures StepAll(w, DeletionSteps(w, q, id, server, outcome)).store == Deleted(w.store, server, id, outcome)
  {
    hide Locate, StepAll;
    var ask := AskDelete(q, id, server);
    assert Step(w, ask) == Asked(w, q, id, server);
    if id !in w.store.rows || w.store.rows[id].server != server {
      assert StepAll(w, [ask]) == Step(w, ask) by { StepOne(w, ask); }
    } else if w.store.rows[id].status != Completed {
      StepTwo(w, ask, RemoveRow(q, outcome != RowFails));
      PendingDeletion(w, q, id, server, outcome);
      hide Step, Asked, Deleted;
    } else {
      StepTwo(w, ask, RemoveFile(q, false));
      StepThree(w, ask, RemoveFile(q, true), RemoveRow(q, outcome != RowFails));
      CompletedDeletion(w, q, id, server, outcome);
      hide Step, Asked, Deleted;
    }
  }

  lemma StepOne(w: World, e: Event)
    ensures StepAll(w, [e]) == Step(w, e)
  {
    hide Step;
    assert [e][1..] == [];
  }
}
