/** Runs of the whole policy table, and what they are for each of its policies. */
module PolicyTableRuns {
  import opened PolicySweep
  import PolicyRuns
  import opened Schedule
  import opened Wrappers

  /** The table and the policies the sweep under way has found due and not yet run. */
  datatype World = World(policies: Policies, pending: set<Id>)

  /** Listed: a sweep reads the table between `from` and `to`, looking at each enabled policy at its instant
      in `clock`. Ended: the execution of a due policy ends. RanNow: one asked for by hand ends. */
  datatype TableEvent =
    | Created(id: Id, server: string, input: CreateInput, at: int)
    | Listed(from: int, to: int, clock: map<Id, int>)
    | Ended(id: Id, end: RunEnd)
    | RanNow(id: Id, end: RunEnd)
    | Switched(server: string, id: Id, enabled: bool, at: int)
    | Deleted(server: string, id: Id, at: int)

  ghost function DueSet(ps: Policies, clock: map<Id, int>): set<Id> {
    set id | id in ps && id in clock && ps[id].enabled && SlotPassed(ps[id].plan, Base(ps[id]), clock[id])
  }

  ghost function Step(w: World, e: TableEvent): World {
    match e
    case Created(id, server, input, at) => w.(policies := w.policies[id := NewPolicy(server, input, at)])
    case Listed(_, _, clock) => w.(pending := DueSet(w.policies, clock))
    case Ended(id, end) => World(RecordedIn(w.policies, id, end), w.pending - {id})
    case RanNow(id, end) => w.(policies := RecordedIn(w.policies, id, end))
    case Switched(server, id, enabled, _) => w.(policies := SetEnabled(w.policies, server, id, enabled))
    case Deleted(server, id, _) => w.(policies := Dropped(w.policies, server, id))
  }

  ghost function Run(es: seq<TableEvent>): World {
    if es == [] then World(map[], {}) else Step(Run(es[..|es| - 1]), es[|es| - 1])
  }

  function Begins(e: TableEvent): int {
    match e
    case Listed(from, _, _) => from
    case Ended(_, end) => end.at
    case RanNow(_, end) => end.at
    case Created(_, _, _, at) => at
    case Switched(_, _, _, at) => at
    case Deleted(_, _, at) => at
  }

  function Ends(e: TableEvent): int {
    if e.Listed? then e.to else Begins(e)
  }

  predicate WasCreated(es: seq<TableEvent>, id: Id) {
    es != [] && (WasCreated(es[..|es| - 1], id) || (es[|es| - 1].Created? && es[|es| - 1].id == id))
  }

  /** What a sweep needs to begin, and what the end of an execution. */
  ghost predicate Allowed(w: World, es: seq<TableEvent>, e: TableEvent) {
    match e
    case Created(id, _, _, _) => !WasCreated(es, id)
    case Listed(from, to, clock) =>
      && w.pending == {} && from <= to
      && (forall id | id in clock :: from <= clock[id] <= to)
      && (forall id | id in w.policies && w.policies[id].enabled :: id in clock)
    case Ended(id, _) => id in w.pending
    case _ => true
  }

  /** The clock never goes back, ids are never reused, and the sweeper finishes one sweep before the next. */
  ghost predicate Plausible(es: seq<TableEvent>) {
    es == [] ||
    (var init, e := es[..|es| - 1], es[|es| - 1];
     && Plausible(init) && Allowed(Run(init), init, e) && Begins(e) <= Ends(e)
     && (init != [] ==> Ends(init[|init| - 1]) <= Begins(e)))
  }

  // ---------- one policy's share of a table run ----------

  /** What the event is for policy `id`, if anything. */
  ghost function Share(w: World, e: TableEvent, id: Id): seq<PolicyRuns.Event> {
    if id !in w.policies then []
    else
      match e
      case Listed(_, _, clock) => if id in clock then [PolicyRuns.Ticked(clock[id])] else []
      case Ended(i, end) => if i == id then [PolicyRuns.Finished(end.at, end.saved)] else []
      case RanNow(i, end) => if i == id then [PolicyRuns.RanNow(end.at, end.saved)] else []
      case Switched(server, i, enabled, at) =>
        if i == id && Owns(w.policies, server, i) then [PolicyRuns.Toggled(at, enabled)] else []
      case _ => []
  }

  ghost function Shares(es: seq<TableEvent>, id: Id): seq<PolicyRuns.Event> {
    if es == [] then [] else Shares(es[..|es| - 1], id) + Share(Run(es[..|es| - 1]), es[|es| - 1], id)
  }

  /** The fires of a policy in a table run. */
  ghost function Fires(es: seq<TableEvent>, id: Id): seq<PolicyRuns.Fire>
    requires id in Run(es).policies && Computable(Run(es).policies[id].plan)
  {
    var p := Run(es).policies[id];
    PolicyRuns.Run(p.plan, p.createdAt, Shares(es, id)).fires
  }

  ghost predicate SameState(s: PolicyRuns.Sched, w: World, id: Id)
    requires id in w.policies
  {
    s.base == Base(w.policies[id]) && s.enabled == w.policies[id].enabled && (s.running <==> id in w.pending)
  }

  /** The single-policy run of `es` is valid, ends by `now` and leads to the state that the table holds. */
  ghost predicate Projects(w: World, es: seq<PolicyRuns.Event>, id: Id, now: int)
    requires id in w.policies && Computable(w.policies[id].plan)
  {
    var p := w.policies[id];
    && PolicyRuns.ValidRun(p.plan, p.createdAt, es)
    && p.createdAt <= now && (es != [] ==> es[|es| - 1].at <= now)
    && SameState(PolicyRuns.Run(p.plan, p.createdAt, es), w, id)
  }

  lemma ValidAppend(p: Plan, createdAt: int, es: seq<PolicyRuns.Event>, e: PolicyRuns.Event)
    requires Computable(p) && PolicyRuns.ValidRun(p, createdAt, es)
    requires createdAt <= e.at && (es != [] ==> es[|es| - 1].at <= e.at)
    requires e.Ticked? ==> !PolicyRuns.Run(p, createdAt, es).running
    requires e.Finished? ==> PolicyRuns.Run(p, createdAt, es).running
    ensures PolicyRuns.ValidRun(p, createdAt, es + [e])
    ensures PolicyRuns.Run(p, createdAt, es + [e]) == PolicyRuns.Step(p, PolicyRuns.Run(p, createdAt, es), e)
  {
    hide PolicyRuns.Step, Computable;
    assert (es + [e])[..|es|] == es;
  }

  /** One event of the policy's own, on both sides. */
  lemma ShareStep(w: World, e: TableEvent, id: Id, es: seq<PolicyRuns.Event>, now: int, x: PolicyRuns.Event)
    requires id in w.policies && Computable(w.policies[id].plan) && Projects(w, es, id, now)
    requires Share(w, e, id) == [x] && now <= x.at <= Ends(e)
    requires e.Listed? ==> w.pending == {}
    requires e.Ended? ==> e.id in w.pending
    requires id in Step(w, e).policies
    ensures Step(w, e).policies[id].plan == w.policies[id].plan
    ensures Projects(Step(w, e), es + [x], id, Ends(e))
  {
    var p := w.policies[id];
    var s := PolicyRuns.Run(p.plan, p.createdAt, es);
    ValidAppend(p.plan, p.createdAt, es, x);
    if e.Listed? {
      assert IsNextSlot(p.plan, s.base, NextSlot(p.plan, s.base));
      DueIff(p.plan, s.base, NextSlot(p.plan, s.base), x.at);
    }
    hide PolicyRuns.Run, PolicyRuns.ValidRun, Computable, IsNextSlot, NextSlot, SlotPassed;
  }

  lemma NoShareStep(w: World, e: TableEvent, id: Id, es: seq<PolicyRuns.Event>, now: int)
    requires id in w.policies && Computable(w.policies[id].plan) && Projects(w, es, id, now)
    requires Share(w, e, id) == [] && now <= Ends(e)
    requires e.Listed? ==> w.pending == {} && (w.policies[id].enabled ==> id in e.clock)
    requires e.Created? ==> e.id != id
    requires id in Step(w, e).policies
    ensures Step(w, e).policies[id].plan == w.policies[id].plan
    ensures Projects(Step(w, e), es, id, Ends(e))
  {
    hide PolicyRuns.Run, PolicyRuns.ValidRun, Computable, SlotPassed;
  }

  lemma {:induction false} KnownCreated(es: seq<TableEvent>, id: Id)
    requires Plausible(es) && (id in Run(es).policies || id in Run(es).pending)
    ensures WasCreated(es, id)
  {
    var init, e := es[..|es| - 1], es[|es| - 1];
    if id in Run(init).policies || id in Run(init).pending { KnownCreated(init, id); }
    hide SlotPassed;
  }

  lemma {:induction false} NoSharesBefore(es: seq<TableEvent>, id: Id)
    requires Plausible(es) && !WasCreated(es, id)
    ensures Shares(es, id) == []
  {
    if es != [] {
      var init := es[..|es| - 1];
      NoSharesBefore(init, id);
      if id in Run(init).policies { KnownCreated(init, id); }
      hide Run;
    }
  }

  lemma CreatedProjects(w: World, e: TableEvent)
    requires e.Created? && e.id !in w.pending && Computable(e.input.plan)
    ensures e.id in Step(w, e).policies && Step(w, e).policies[e.id].plan == e.input.plan
    ensures Projects(Step(w, e), [], e.id, Ends(e))
  {
    hide Computable;
  }

  /** Main result: on every run of the table, with any executions, sweeps, manual runs, switches, creations
      and deletions of other policies in between, each policy goes through a valid run of its own that leads
      to the base, the switch and the execution under way that the table holds. */
  lemma {:induction false} TableRefines(es: seq<TableEvent>, id: Id)
    requires Plausible(es) && id in Run(es).policies && Computable(Run(es).policies[id].plan)
    ensures es != [] && Projects(Run(es), Shares(es, id), id, Ends(es[|es| - 1]))
  {
    var init, e := es[..|es| - 1], es[|es| - 1];
    if e.Created? && e.id == id {
      NoSharesBefore(init, id);
      if id in Run(init).policies || id in Run(init).pending { KnownCreated(init, id); }
      CreatedProjects(Run(init), e);
      assert Share(Run(init), e, id) == [];
      assert Shares(init, id) + [] == [];
    } else {
      var w := Run(init);
      SamePlan(w, e, id);
      TableRefines(init, id);
      var now := Ends(init[|init| - 1]);
      var share := Share(w, e, id);
      if share == [] {
        NoShareStep(w, e, id, Shares(init, id), now);
        assert Shares(init, id) + [] == Shares(init, id);
      } else {
        ShareTime(w, e, id);
        assert share == [share[0]];
        ShareStep(w, e, id, Shares(init, id), now, share[0]);
      }
    }
    hide Projects, Computable, Share, SlotPassed;
  }

  lemma SamePlan(w: World, e: TableEvent, id: Id)
    requires id in Step(w, e).policies && !(e.Created? && e.id == id)
    ensures id in w.policies && w.policies[id].plan == Step(w, e).policies[id].plan
  {
    hide SlotPassed;
  }

  lemma ShareTime(w: World, e: TableEvent, id: Id)
    requires Share(w, e, id) != []
    requires e.Listed? ==> forall i | i in e.clock :: e.from <= e.clock[i] <= e.to
    ensures |Share(w, e, id)| == 1 && Begins(e) <= Share(w, e, id)[0].at <= Ends(e)
  {
  }

  /** So the slots that a policy of the table fires never go back, and two consecutive ones coincide exactly
      if no execution was recorded between them. */
  lemma TableSlotsIncrease(es: seq<TableEvent>, id: Id, i: nat)
    requires Plausible(es) && id in Run(es).policies && Computable(Run(es).policies[id].plan)
    requires 0 < i < |Fires(es, id)|
    ensures var fires := Fires(es, id);
            && IsSlot(Run(es).policies[id].plan, fires[i].slot) && fires[i].slot <= fires[i].at
            && (fires[i - 1].slot < fires[i].slot <==> fires[i - 1].recordedAt.Some?)
            && (fires[i - 1].recordedAt.None? ==> fires[i - 1].slot == fires[i].slot)
  {
    TableRefines(es, id);
    var p := Run(es).policies[id];
    hide Run, Plausible, Shares, Computable, PolicyRuns.Run, PolicyRuns.ValidRun, IsSlot;
    PolicyRuns.SlotsIncrease(p.plan, p.createdAt, Shares(es, id), i);
  }

  lemma PassedIff(p: Plan, base: int, at: int, slot: int)
    requires Computable(p) && PolicyRuns.IsLatestSlot(p, at, slot)
    ensures SlotPassed(p, base, at) <==> base < slot
  {
    hide IsSlot;
  }

  /** A sweep finds a policy due exactly if it is enabled, the latest slot came after its creation, and no
      execution of it recorded so far ended at or after that slot. */
  lemma SweepFiresIff(es: seq<TableEvent>, clock: map<Id, int>, id: Id, slot: int)
    requires Plausible(es) && id in Run(es).policies && Computable(Run(es).policies[id].plan)
    requires id in clock && PolicyRuns.IsLatestSlot(Run(es).policies[id].plan, clock[id], slot)
    ensures var p := Run(es).policies[id];
            id in DueSet(Run(es).policies, clock)
            <==> p.enabled && p.createdAt < slot && !PolicyRuns.RecordedSince(Shares(es, id), slot)
  {
    TableRefines(es, id);
    var p := Run(es).policies[id];
    hide Run, Plausible, Shares, PolicyRuns.Run, PolicyRuns.ValidRun, PolicyRuns.IsLatestSlot, PolicyRuns.RecordedSince,
      SlotPassed;
    PolicyRuns.BaseSince(p.plan, p.createdAt, Shares(es, id), slot);
    PassedIff(p.plan, Base(p), clock[id], slot);
    hide Computable;
  }

  // ---------- the sweep method is such a run ----------

  function EndEvents(due: seq<Id>, ends: map<Id, RunEnd>): seq<TableEvent>
    requires forall id | id in due :: id in ends
  {
    seq(|due|, i requires 0 <= i < |due| => Ended(due[i], ends[due[i]]))
  }

  lemma {:induction false} EndEventsRun(es: seq<TableEvent>, due: seq<Id>, ends: map<Id, RunEnd>)
    requires forall id | id in due :: id in ends
    ensures Run(es + EndEvents(due, ends)).policies == RecordedAll(Run(es).policies, due, ends)
    ensures Run(es + EndEvents(due, ends)).pending == Run(es).pending - set id | id in due
  {
    if due == [] {
      assert es + EndEvents(due, ends) == es;
    } else {
      var n := |due| - 1;
      var init := due[..n];
      assert due == init + [due[n]];
      EndEventsRun(es, init, ends);
      EndEventsLast(es, due, ends);
      RunAppend(es + EndEvents(init, ends), Ended(due[n], ends[due[n]]));
      hide SlotPassed, Run, EndEvents, RecordedIn;
    }
  }

  lemma EndEventsLast(es: seq<TableEvent>, due: seq<Id>, ends: map<Id, RunEnd>)
    requires due != [] && forall id | id in due :: id in ends
    ensures var n := |due| - 1;
            && (forall id | id in due[..n] :: id in ends) && due[n] in ends
            && es + EndEvents(due, ends) == es + EndEvents(due[..n], ends) + [Ended(due[n], ends[due[n]])]
  {
    var n := |due| - 1;
    assert forall id | id in due[..n] :: id in due;
    assert due[n] in due;
    assert EndEvents(due, ends) == EndEvents(due[..n], ends) + [Ended(due[n], ends[due[n]])];
  }

  lemma RunAppend(es: seq<TableEvent>, e: TableEvent)
    ensures Run(es + [e]) == Step(Run(es), e)
  {
    assert (es + [e])[..|es|] == es;
    hide Step;
  }

  /** What the sweep's contract leaves of the table is what the run of its steps leaves: list the due
      policies, then record the end of each. */
  lemma SweepIsRun(es: seq<TableEvent>, from: int, to: int, clock: map<Id, int>, due: seq<Id>, ends: map<Id, RunEnd>)
    requires forall id | id in due :: id in ends
    requires forall id :: id in due <==> id in DueSet(Run(es).policies, clock)
    ensures var all := es + [Listed(from, to, clock)] + EndEvents(due, ends);
            Run(all).policies == RecordedAll(Run(es).policies, due, ends) && Run(all).pending == {}
  {
    var listed := es + [Listed(from, to, clock)];
    RunAppend(es, Listed(from, to, clock));
    EndEventsRun(listed, due, ends);
    hide SlotPassed, Run, EndEvents, RecordedAll;
  }

  // ---------- what the columns of a policy hold ----------

  /** A policy stays as it was entered, whatever runs, switches and other policies do. */
  lemma {:induction false} PolicyAsEntered(es: seq<TableEvent>, id: Id) returns (k: nat)
    requires Plausible(es) && id in Run(es).policies
    ensures k < |es| && es[k].Created? && es[k].id == id
    ensures var p, input := Run(es).policies[id], es[k].input;
            && p.server == es[k].server && p.createdAt == es[k].at
            && p.database == input.database && p.storage == input.storage && p.plan == input.plan
            && p.retention == input.retention
  {
    var init, e := es[..|es| - 1], es[|es| - 1];
    if e.Created? && e.id == id {
      k := |es| - 1;
    } else {
      EnteredStep(Run(init), e, id);
      hide Run, Step, Plausible;
      assert Run(es) == Step(Run(init), e) && Plausible(init) by { RunStep(es); }
      k := PolicyAsEntered(init, id);
    }
  }

  lemma RunStep(es: seq<TableEvent>)
    requires es != [] && Plausible(es)
    ensures Run(es) == Step(Run(es[..|es| - 1]), es[|es| - 1]) && Plausible(es[..|es| - 1])
  {
    hide Step, Allowed;
  }

  lemma EnteredStep(w: World, e: TableEvent, id: Id)
    requires id in Step(w, e).policies && !(e.Created? && e.id == id)
    ensures id in w.policies
    ensures var p, q := w.policies[id], Step(w, e).policies[id];
            q == p.(enabled := q.enabled, lastRunAt := q.lastRunAt, lastRunFailed := q.lastRunFailed)
    ensures var p, q := w.policies[id], Step(w, e).policies[id];
            && q.lastRunAt == (if EndOf(e, id).Some? then Some(EndOf(e, id).value.at) else p.lastRunAt)
            && q.lastRunFailed == (if EndOf(e, id).Some? then EndOf(e, id).value.failed else p.lastRunFailed)
  {
    hide SlotPassed;
  }

  /** The end of an execution of `id` that this event saves. */
  function EndOf(e: TableEvent, id: Id): Option<RunEnd> {
    if (e.Ended? || e.RanNow?) && e.id == id && e.end.saved then Some(e.end) else None
  }

  /** The last end saved since the policy was created. */
  function LastEnd(es: seq<TableEvent>, id: Id): Option<RunEnd> {
    if es == [] then None
    else
      var e := es[|es| - 1];
      if e.Created? && e.id == id then None
      else if EndOf(e, id).Some? then EndOf(e, id)
      else LastEnd(es[..|es| - 1], id)
  }

  /** The columns on the last run tell of the last end that was saved: when it was and whether it failed. */
  lemma {:induction false} LastRunTells(es: seq<TableEvent>, id: Id)
    requires Plausible(es) && id in Run(es).policies
    ensures var p, last := Run(es).policies[id], LastEnd(es, id);
            && (p.lastRunAt.Some? <==> last.Some?)
            && (last.Some? ==> p.lastRunAt.value == last.value.at && p.lastRunFailed == last.value.failed)
  {
    var init, e := es[..|es| - 1], es[|es| - 1];
    if !(e.Created? && e.id == id) {
      RunStep(es);
      EnteredStep(Run(init), e, id);
      hide Run, Step, Plausible;
      LastRunTells(init, id);
    }
  }

  /** The server of a policy that has been created and not been deleted for that server. */
  function Owner(es: seq<TableEvent>, id: Id): Option<string> {
    if es == [] then None
    else
      var owner, e := Owner(es[..|es| - 1], id), es[|es| - 1];
      if e.Created? && e.id == id then Some(e.server)
      else if e.Deleted? && e.id == id && owner == Some(e.server) then None
      else owner
  }

  /** A policy is in the table exactly while it has an owner: only a deletion for its own server removes it. */
  lemma {:induction false} OwnedIff(es: seq<TableEvent>, id: Id)
    ensures Owner(es, id) == if id in Run(es).policies then Some(Run(es).policies[id].server) else None
  {
    if es != [] {
      OwnedIff(es[..|es| - 1], id);
      hide SlotPassed;
    }
  }
}
