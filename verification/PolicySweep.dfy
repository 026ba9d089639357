/** The table of backup policies and the sweep that runs those that are due. */
module PolicySweep {
  import opened Identifiers
  import opened Schedule
  import opened Wrappers

  type Id = nat

  datatype Policy = Policy(server: string, database: string, storage: string, plan: Plan, retention: int,
                           enabled: bool, createdAt: int, lastRunAt: Option<int>, lastRunFailed: bool)

  type Policies = map<Id, Policy>

  datatype PolicyError =
    BadDatabase | BadStorage | BadFrequency | BadTime | BadWeekday | BadRetention | NoServer | NotFound

  /** The form; `storageKnown` and `serverKnown` say whether the two look-ups find something. */
  datatype CreateInput = CreateInput(database: string, storage: string, storageKnown: bool, plan: Plan,
                                     retention: int, serverKnown: bool)

  function Base(p: Policy): int {
    if p.lastRunAt.Some? then p.lastRunAt.value else p.createdAt
  }

  /** Some slot lies after the last recorded run (or creation) and not after `now`. */
  ghost predicate SlotPassed(p: Plan, base: int, now: int) {
    ParseTimeOfDay(p.timeOfDay).Ok? && Computable(p) && exists s :: IsSlot(p, s) && base < s <= now
  }

  /** How one execution ends: when, whether it failed, and whether last_run_at was saved. */
  datatype RunEnd = RunEnd(at: int, failed: bool, saved: bool)

  function Recorded(p: Policy, end: RunEnd): Policy {
    if end.saved then p.(lastRunAt := Some(end.at), lastRunFailed := end.failed) else p
  }

  function RecordedIn(ps: Policies, id: Id, end: RunEnd): Policies {
    if id in ps then ps[id := Recorded(ps[id], end)] else ps
  }

  function NewPolicy(server: string, i: CreateInput, now: int): Policy {
    Policy(server, i.database, i.storage, i.plan, i.retention, true, now, None, false)
  }

  /** The policy exists and belongs to the server. */
  predicate Owns(ps: Policies, server: string, id: Id) {
    id in ps && ps[id].server == server
  }

  function SetEnabled(ps: Policies, server: string, id: Id, enabled: bool): Policies {
    if Owns(ps, server, id) then ps[id := ps[id].(enabled := enabled)] else ps
  }

  function Dropped(ps: Policies, server: string, id: Id): Policies {
    if Owns(ps, server, id) then ps - {id} else ps
  }

  /** The ends of the executions in `due`, in order. */
  function RecordedAll(ps: Policies, due: seq<Id>, ends: map<Id, RunEnd>): Policies
    requires forall id | id in due :: id in ends
  {
    if due == [] then ps
    else
      var id := due[|due| - 1];
      assert id in due && forall d | d in due[..|due| - 1] :: d in due;
      RecordedIn(RecordedAll(ps, due[..|due| - 1], ends), id, ends[id])
  }

  class PolicyTable {
    var policies: Policies

    constructor ()
      ensures policies == map[]
    {
      policies := map[];
    }

    /** `id` is fresh, as generated by the database. A policy that is let in always has a next run. */
    method CreateBackupPolicy(id: Id, server: string, i: CreateInput, now: int) returns (r: Result<(), PolicyError>)
      requires id !in policies
      modifies this
      ensures r.Ok? <==>
        && IsIdent(i.database) && i.storageKnown && i.plan.frequency in {"daily", "weekly"} && Computable(i.plan)
        && i.retention > 0 && i.serverKnown
      ensures policies == if r.Ok? then old(policies)[id := NewPolicy(server, i, now)] else old(policies)
    {
      if i.database == "" || !IsIdent(i.database) { return Err(BadDatabase); }
      if !i.storageKnown { return Err(BadStorage); }
      if i.plan.frequency !in {"daily", "weekly"} { return Err(BadFrequency); }
      var time := ParseTimeOfDay(i.plan.timeOfDay);
      if time.Err? { return Err(BadTime); }
      var weekday := i.plan.weekday;
      if i.plan.frequency == "weekly" && (weekday == None || weekday.value < 0 || weekday.value > 6) {
        return Err(BadWeekday);
      }
      if i.retention <= 0 { return Err(BadRetention); }
      if !i.serverKnown { return Err(NoServer); }
      policies := policies[id := NewPolicy(server, i, now)];
      return Ok(());
    }

    method SetBackupPolicyEnabled(server: string, id: Id, enabled: bool) returns (r: Result<(), PolicyError>)
      modifies this
      ensures r.Ok? <==> Owns(old(policies), server, id)
      ensures policies == SetEnabled(old(policies), server, id, enabled)
    {
      var rowsAffected := 0;
      if id in policies && policies[id].server == server {
        policies := policies[id := policies[id].(enabled := enabled)];
        rowsAffected := 1;
      }
      if rowsAffected == 0 { return Err(NotFound); }
      return Ok(());
    }

    method DeleteBackupPolicy(server: string, id: Id) returns (r: Result<(), PolicyError>)
      modifies this
      ensures r.Ok? <==> Owns(old(policies), server, id)
      ensures policies == Dropped(old(policies), server, id)
    {
      var rowsAffected := 0;
      if id in policies && policies[id].server == server {
        policies := policies - {id};
        rowsAffected := 1;
      }
      if rowsAffected == 0 { return Err(NotFound); }
      return Ok(());
    }

    method RecordPolicyRun(id: Id, end: RunEnd)
      modifies this
      ensures policies == RecordedIn(old(policies), id, end)
    {
      if end.saved && id in policies {
        policies := policies[id := policies[id].(lastRunAt := Some(end.at), lastRunFailed := end.failed)];
      } else if id in policies {
        assert policies == policies[id := policies[id]];
      }
    }

    /** The executions of the due policies end one after the other. */
    method RecordPolicyRuns(due: seq<Id>, ends: map<Id, RunEnd>)
      requires forall id | id in due :: id in ends
      modifies this
      ensures policies == RecordedAll(old(policies), due, ends)
    {
      for i := 0 to |due|
        invariant policies == RecordedAll(old(policies), due[..i], ends)
      {
        assert due[i] in due && due[..i + 1][..i] == due[..i];
        RecordPolicyRun(due[i], ends[due[i]]);
      }
      assert due[..|due|] == due;
    }

    /** One tick with nothing else going on. `listing` is the result of the query for enabled policies; a row
        is examined at its instant in `clock`; `ends` says how each execution would end. */
    method SweepOnce(listing: seq<Id>, clock: map<Id, int>, ends: map<Id, RunEnd>) returns (due: seq<Id>)
      requires forall i, j | 0 <= i < j < |listing| :: listing[i] != listing[j]
      requires forall id :: id in listing <==> id in policies && policies[id].enabled
      requires forall id | id in listing :: id in clock && id in ends
      modifies this
      ensures forall id | id in due :: id in listing
      ensures forall id | id in listing ::
                id in due <==> SlotPassed(old(policies)[id].plan, Base(old(policies)[id]), clock[id])
      ensures forall i, j | 0 <= i < j < |due| :: due[i] != due[j]
      ensures policies == RecordedAll(old(policies), due, ends)
    {
      due := [];
      hide ParseTimeOfDay, IsNextSlot, SlotPassed, Computable;
      for i := 0 to |listing|
        invariant policies == old(policies)
        invariant forall id | id in due :: id in listing[..i]
        invariant forall id | id in listing[..i] ::
                    id in due <==> SlotPassed(policies[id].plan, Base(policies[id]), clock[id])
        invariant forall k, l | 0 <= k < l < |due| :: due[k] != due[l]
      {
        var id := listing[i];
        assert id in listing && id !in listing[..i];
        var p := policies[id];
        var next := NextScheduledRun(p.plan, Base(p));
        if next.Ok? { DueIff(p.plan, Base(p), next.value, clock[id]); } else { NeverDue(p.plan, Base(p), clock[id]); }
        if next.Ok? && !(clock[id] < next.value) {
          due := due + [id];
        }
        assert listing[..i + 1] == listing[..i] + [id];
      }
      assert listing[..|listing|] == listing;
      RecordPolicyRuns(due, ends);
    }
  }

  /** The sweep's test `!now.Before(next)` says exactly that a slot has passed since the base. */
  lemma DueIff(p: Plan, base: int, next: int, now: int)
    requires Computable(p) && IsNextSlot(p, base, next)
    ensures next <= now <==> SlotPassed(p, base, now)
  {
  }

  lemma NeverDue(p: Plan, base: int, now: int)
    requires !Computable(p)
    ensures !SlotPassed(p, base, now)
  {
  }
}
