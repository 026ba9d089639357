/** One execution of a backup policy: insert, run, record, and retention with the policy's own settings. */
module PolicyExecution {
  import opened Wrappers
  import opened BackupNames
  import opened BackupStore
  import opened BackupRuns
  import opened BackupOutcomes
  import opened Identifiers
  import PolicySweep

  /** A policy is created with "local" or "gdrive" and nothing else. */
  function StorageOf(name: string): Storage {
    if name == "gdrive" then GDrive else Local
  }

  /** The backup that an execution of the policy at `now` is born as. */
  function BirthOf(policy: BackupStore.Id, p: PolicySweep.Policy, now: nat): Birth {
    Birth(p.server, Some(policy), p.database, StorageOf(p.storage), now)
  }

  /** The store after the policy's backup has been inserted and run. */
  function AfterBackup(s: Store, policy: BackupStore.Id, p: PolicySweep.Policy, id: BackupStore.Id, now: nat,
                       outcome: RunOutcome, marked: bool): Store {
    Performed(s.(rows := s.rows[id := RowOf(BirthOf(policy, p, now))]), id, outcome, marked)
  }

  /** What lies beyond the policy's retention count in the listing. */
  function Beyond(p: PolicySweep.Policy, listing: seq<BackupStore.Id>): seq<BackupStore.Id> {
    if 0 <= p.retention <= |listing| then listing[p.retention..] else []
  }

  class PolicyRunner {
    const table: PolicySweep.PolicyTable
    const service: BackupService

    constructor (table: PolicySweep.PolicyTable, service: BackupService)
      ensures this.table == table && this.service == service
    {
      this.table, this.service := table, service;
    }

    /** `runPolicyOnce`. `id` is the fresh row id, `inserted` whether the row could be written, `end` when the
        run is recorded and whether that write goes through; `listing` is what the retention query then finds
        and `outcomes` how the deletions end. */
    method RunPolicyOnce(policy: BackupStore.Id, p: PolicySweep.Policy, id: BackupStore.Id, now: nat, inserted: bool,
                         outcome: RunOutcome, marked: bool, at: int, saved: bool,
                         listing: seq<BackupStore.Id>, outcomes: map<BackupStore.Id, DeleteOutcome>)
      returns (r: Result<(), Error>)
      requires id !in service.store.rows && p.retention > 0
      requires inserted && outcome.Succeeds? ==>
                 IsListing(AfterBackup(service.store, policy, p, id, now, outcome, marked).rows, policy, listing)
      requires forall i | i in listing :: i in outcomes
      modifies table, service
      ensures table.policies
           == PolicySweep.RecordedIn(old(table.policies), policy, PolicySweep.RunEnd(at, r.Err?, saved))
      ensures var after := AfterBackup(old(service.store), policy, p, id, now, outcome, marked);
              service.store == if !inserted then old(service.store)
                               else if r.Err? then after
                               else DeletedAll(after, p.server, Beyond(p, listing), outcomes)
      ensures r.Ok? <==> && inserted && outcome.Succeeds?
                         && Destination(RowOf(BirthOf(policy, p, now)), outcome.ref).Ok?
    {
      hide IsListing, Destination, Performed, DeletedAll, PolicySweep.RecordedIn;
      if !inserted {
        table.RecordPolicyRun(policy, PolicySweep.RunEnd(at, true, saved));
        return Err(StorageError);
      }
      service.InsertBackup(id, p.server, Some(policy), p.database, StorageOf(p.storage), now);
      r := service.PerformBackup(id, outcome, marked);
      table.RecordPolicyRun(policy, PolicySweep.RunEnd(at, r.Err?, saved));
      if r.Err? {
        return r;
      }
      service.ApplyBackupRetention(policy, p.server, p.retention, listing, outcomes);
    }
  }

  lemma AfterIsLifecycle(es: seq<Event>, policy: BackupStore.Id, p: PolicySweep.Policy, id: BackupStore.Id, now: nat,
                         driveId: string, marked: bool)
    requires ValidRun(es) && Enabled(Run(es), Insert(id, BirthOf(policy, p, now)))
    requires StorageOf(p.storage) == GDrive ==> NewDriveId(Run(es), driveId)
    ensures var x := BirthOf(policy, p, now);
            var run := es + Lifecycle(id, x, driveId);
            && ValidRun(run)
            && Run(run).store == AfterBackup(Run(es).store, policy, p, id, now, Succeeds(driveId), marked)
            && Run(run).store.rows == Run(es).store.rows[id := DoneRow(x, driveId)]
            && Locate(DoneRow(x, driveId)).Ok? && IsDump(Run(run).store, Locate(DoneRow(x, driveId)).value, id)
  {
    var x := BirthOf(policy, p, now);
    DescribesItself(x);
    Enables(Run(es), id, x);
    hide Run, ValidRun, Enabled, Lifecycle, Locate, Destination, GoodBirth, Describes, EndPlace, NewDriveId;
    DestinationKept(RowOf(x), x, driveId);
    UndisturbedBackupCompletes(es, id, x, driveId);
  }

  lemma NotLost(es: seq<Event>, ref: Ref, id: BackupStore.Id)
    requires ValidRun(es) && IsDump(Run(es).store, ref, id)
    ensures id !in Run(es).lost
  {
    RunKeepsInv(es);
    hide Run, ValidRun, AllIdsOk, RequestsOk, DrivesDistinct;
    assert IsDump(Run(es).store, ref, id) <==> Kept(Run(es), ref, id);
  }

  /** Main result: an execution that goes through on any reachable state leaves a completed backup with the
      policy's server, database and storage, dated at its start, and of the policy's backups the newest, as many
      as the policy keeps, the new one among them; that one opens its own dump if and only if no backup that
      was deleted shares its name, which takes one of the same second. */
  lemma PolicyRunKeepsNewest(es: seq<Event>, policy: BackupStore.Id, p: PolicySweep.Policy, id: BackupStore.Id,
                             now: nat, driveId: string, marked: bool, listing: seq<BackupStore.Id>,
                             outcomes: map<BackupStore.Id, DeleteOutcome>)
    requires ValidRun(es) && id !in Run(es).born && p.retention > 0
    requires PlainName(p.server) && IsIdent(p.database) && FourDigitYear(now / 1_000_000)
    requires StorageOf(p.storage) == GDrive ==> NewDriveId(Run(es), driveId)
    requires var after := AfterBackup(Run(es).store, policy, p, id, now, Succeeds(driveId), marked);
             && IsListing(after.rows, policy, listing)
             && forall i | i in listing :: after.rows[i].server == p.server && i in outcomes && outcomes[i] == Deletes
    requires forall j | j in Run(es).store.rows && OfPolicy(Run(es).store.rows[j], policy) ::
               Run(es).store.rows[j].startedAt < now
    ensures var after := AfterBackup(Run(es).store, policy, p, id, now, Succeeds(driveId), marked);
            var gone := Beyond(p, listing);
            var final := DeletedAll(after, p.server, gone, outcomes);
            && |listing| - |gone| == (if p.retention <= |listing| then p.retention else |listing|)
            && KeepsNewest(after.rows, final.rows, policy, listing[..|listing| - |gone|])
            && id in final.rows && final.rows[id].status == Completed && final.rows[id].policy == Some(policy)
            && final.rows[id].server == p.server && final.rows[id].database == p.database
            && (final.rows[id].storage == GDrive <==> p.storage == "gdrive") && final.rows[id].startedAt == now
            && Locate(final.rows[id]).Ok?
            && (IsDump(final, Locate(final.rows[id]).value, id)
                <==> !SharesWith(Run(es + Lifecycle(id, BirthOf(policy, p, now), driveId)), gone, id))
  {
    hide Run, ValidRun, Enabled, Lifecycle, Locate, GoodBirth, IsListing, AfterBackup, DeletedAll, IsDump, SharesWith,
      DoneRow, NewDriveId, StorageOf, FourDigitYear, IsIdent, PlainName, KeepsNewest, OfPolicy, Beyond, BirthOf;
    var x := BirthOf(policy, p, now);
    var run := es + Lifecycle(id, x, driveId);
    BirthFits(Run(es), policy, p, id, now, driveId);
    AfterIsLifecycle(es, policy, p, id, now, driveId, marked);
    NotLost(run, Locate(DoneRow(x, driveId)).value, id);
    NewestStays(Run(run).store.rows, policy, p, listing, id);
    BeyondIs(p, listing);
    RetentionAfterRun(run, policy, p.server, p.retention, listing, outcomes);
    KeptRow(Run(run).store, policy, p, id, listing, outcomes);
  }

  lemma BirthFits(w: World, policy: BackupStore.Id, p: PolicySweep.Policy, id: BackupStore.Id, now: nat, driveId: string)
    requires id !in w.born && PlainName(p.server) && IsIdent(p.database) && FourDigitYear(now / 1_000_000)
    ensures var x := BirthOf(policy, p, now);
            var row := DoneRow(x, driveId);
            && Enabled(w, Insert(id, x))
            && OfPolicy(row, policy) && row.policy == Some(policy) && row.status == Completed
            && row.server == p.server && row.database == p.database && (row.storage == GDrive <==> p.storage == "gdrive")
            && row.startedAt == now
  {
    hide FourDigitYear, IsIdent, PlainName, Filename;
  }

  lemma BeyondIs(p: PolicySweep.Policy, listing: seq<BackupStore.Id>)
    requires p.retention > 0
    ensures var cut := if p.retention <= |listing| then p.retention else |listing|;
            |listing| - |Beyond(p, listing)| == cut && Beyond(p, listing) == listing[cut..]
  {
  }

  lemma NewestStays(rows: map<BackupStore.Id, Backup>, policy: BackupStore.Id, p: PolicySweep.Policy,
                    listing: seq<BackupStore.Id>, id: BackupStore.Id)
    requires IsListing(rows, policy, listing) && p.retention > 0 && id in rows && OfPolicy(rows[id], policy)
    requires forall j | j in rows && j != id && OfPolicy(rows[j], policy) :: rows[j].startedAt < rows[id].startedAt
    ensures id !in Beyond(p, listing)
  {
    hide IsListing, OfPolicy;
    NewestIsKept(rows, policy, p.retention, listing, id);
  }

  lemma KeptRow(s: Store, policy: BackupStore.Id, p: PolicySweep.Policy, id: BackupStore.Id,
                listing: seq<BackupStore.Id>, outcomes: map<BackupStore.Id, DeleteOutcome>)
    requires p.retention > 0 && id in s.rows && id !in Beyond(p, listing) && OfPolicy(s.rows[id], policy)
    requires IsListing(s.rows, policy, listing)
    requires KeepsNewest(s.rows, DeletedAll(s, p.server, Beyond(p, listing), outcomes).rows, policy,
                         listing[..|listing| - |Beyond(p, listing)|])
    ensures id in DeletedAll(s, p.server, Beyond(p, listing), outcomes).rows
    ensures DeletedAll(s, p.server, Beyond(p, listing), outcomes).rows[id] == s.rows[id]
  {
    var cut := |listing| - |Beyond(p, listing)|;
    assert id in listing;
    assert listing == listing[..cut] + Beyond(p, listing);
  }
}
