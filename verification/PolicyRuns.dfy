/** Runs of one policy: which slots it fires and when. */
module PolicyRuns {
  import opened PolicySweep
  import opened Schedule
  import opened Wrappers

  /** A fired slot, when it fired, and the latest run recorded since (if any was saved). */
  datatype Fire = Fire(slot: int, at: int, recordedAt: Option<int>)

  datatype Sched = Sched(base: int, enabled: bool, running: bool, fires: seq<Fire>)

  /** Ticked: the sweep examines the policy. Finished: its execution ends. RanNow: a manual run ends,
      possibly while a scheduled one is under way. */
  datatype Event =
    | Ticked(at: int)
    | Finished(at: int, saved: bool)
    | RanNow(at: int, saved: bool)
    | Toggled(at: int, enabled: bool)

  function Save(s: Sched, at: int): Sched {
    if s.fires == [] then s.(base := at)
    else
      var n := |s.fires| - 1;
      s.(base := at, fires := s.fires[n := s.fires[n].(recordedAt := Some(at))])
  }

  ghost function Step(p: Plan, s: Sched, e: Event): Sched
    requires Computable(p)
  {
    match e
    case Ticked(at) =>
      if s.enabled && NextSlot(p, s.base) <= at
      then s.(running := true, fires := s.fires + [Fire(NextSlot(p, s.base), at, None)])
      else s
    case Finished(at, saved) => (if saved then Save(s, at) else s).(running := false)
    case RanNow(at, saved) => if saved then Save(s, at) else s
    case Toggled(_, enabled) => s.(enabled := enabled)
  }

  ghost function Run(p: Plan, createdAt: int, es: seq<Event>): Sched
    requires Computable(p)
  {
    if es == [] then Sched(createdAt, true, false, [])
    else Step(p, Run(p, createdAt, es[..|es| - 1]), es[|es| - 1])
  }

  /** The clock never goes back, the sweeper is sequential, and only a running execution ends. */
  ghost predicate ValidRun(p: Plan, createdAt: int, es: seq<Event>)
    requires Computable(p)
  {
    es == [] ||
    (var init, e := es[..|es| - 1], es[|es| - 1];
     && ValidRun(p, createdAt, init)
     && createdAt <= e.at && (init != [] ==> init[|init| - 1].at <= e.at)
     && (e.Ticked? ==> !Run(p, createdAt, init).running)
     && (e.Finished? ==> Run(p, createdAt, init).running))
  }

  /** Consecutive fires: the later slot is strictly later exactly when some run was recorded between. */
  predicate Follows(a: Fire, b: Fire) {
    if a.recordedAt.Some? then a.slot <= a.at <= a.recordedAt.value < b.slot else a.slot == b.slot
  }

  predicate InOrder(fires: seq<Fire>) {
    forall i | 0 < i < |fires| :: Follows(fires[i - 1], fires[i])
  }

  ghost predicate SchedInv(p: Plan, s: Sched, now: int)
    requires Computable(p)
  {
    && s.base <= now
    && InOrder(s.fires)
    && (forall f | f in s.fires :: IsSlot(p, f.slot) && f.slot <= f.at <= now)
    && (s.fires != [] ==>
          var last := s.fires[|s.fires| - 1];
          if last.recordedAt.Some? then last.slot <= last.at <= last.recordedAt.value == s.base
          else last.slot == NextSlot(p, s.base))
  }

  lemma SaveKeeps(p: Plan, s: Sched, now: int, at: int)
    requires Computable(p) && SchedInv(p, s, now) && now <= at
    ensures SchedInv(p, Save(s, at), at)
  {
    if s.fires != [] {
      var n := |s.fires| - 1;
      var last := s.fires[n];
      assert last in s.fires;
      var v := Save(s, at);
      forall f | f in v.fires ensures IsSlot(p, f.slot) && f.slot <= f.at <= at {
        var k :| 0 <= k < |v.fires| && v.fires[k] == f;
        assert s.fires[k] in s.fires;
      }
    }
  }

  lemma TickKeeps(p: Plan, s: Sched, now: int, at: int)
    requires Computable(p) && SchedInv(p, s, now) && now <= at
    ensures SchedInv(p, Step(p, s, Ticked(at)), at)
  {
    var next := NextSlot(p, s.base);
    assert IsSlot(p, next) && s.base < next;
    hide IsSlot, IsNextSlot, Computable;
    if s.enabled && next <= at {
      if s.fires != [] { assert s.fires[|s.fires| - 1] in s.fires; }
      InOrderAppend(s.fires, Fire(next, at, None));
      hide InOrder;
    }
  }

  lemma InOrderAppend(fires: seq<Fire>, f: Fire)
    requires InOrder(fires) && (fires != [] ==> Follows(fires[|fires| - 1], f))
    ensures InOrder(fires + [f])
  {
  }

  lemma LaterKeeps(p: Plan, s: Sched, now: int, at: int)
    requires Computable(p) && SchedInv(p, s, now) && now <= at
    ensures SchedInv(p, s, at)
  {
    hide IsSlot, NextSlot, InOrder;
  }

  lemma StepKeeps(p: Plan, s: Sched, now: int, e: Event)
    requires Computable(p) && SchedInv(p, s, now) && now <= e.at
    ensures SchedInv(p, Step(p, s, e), e.at)
  {
    hide IsSlot, NextSlot, InOrder, Computable, Save;
    match e
    case Ticked(at) => TickKeeps(p, s, now, at);
    case Finished(at, saved) => if saved { SaveKeeps(p, s, now, at); } else { LaterKeeps(p, s, now, at); }
    case RanNow(at, saved) => if saved { SaveKeeps(p, s, now, at); } else { LaterKeeps(p, s, now, at); }
    case Toggled(at, _) => LaterKeeps(p, s, now, at);
  }

  lemma {:induction false} RunKeeps(p: Plan, createdAt: int, es: seq<Event>)
    requires Computable(p) && ValidRun(p, createdAt, es)
    ensures SchedInv(p, Run(p, createdAt, es), if es == [] then createdAt else es[|es| - 1].at)
  {
    if es != [] {
      hide Step, SchedInv, Computable;
      var init, e := es[..|es| - 1], es[|es| - 1];
      RunKeeps(p, createdAt, init);
      StepKeeps(p, Run(p, createdAt, init), if init == [] then createdAt else init[|init| - 1].at, e);
    }
  }

  /** Main result: over every run the fired slots never go back, and two consecutive fires share a
      slot if and only if no run was recorded between them; so when every last_run_at is saved, failed
      executions included, each slot fires at most once and missed slots collapse into one run. */
  lemma SlotsIncrease(p: Plan, createdAt: int, es: seq<Event>, i: nat)
    requires Computable(p) && ValidRun(p, createdAt, es) && 0 < i < |Run(p, createdAt, es).fires|
    ensures var fires := Run(p, createdAt, es).fires;
            && IsSlot(p, fires[i].slot) && fires[i].slot <= fires[i].at
            && (fires[i - 1].slot < fires[i].slot <==> fires[i - 1].recordedAt.Some?)
            && (fires[i - 1].recordedAt.None? ==> fires[i - 1].slot == fires[i].slot)
            && (fires[i - 1].recordedAt.Some? ==> fires[i - 1].recordedAt.value < fires[i].slot)
  {
    RunKeeps(p, createdAt, es);
    var fires := Run(p, createdAt, es).fires;
    assert fires[i] in fires && fires[i - 1] in fires;
  }

  ghost predicate AllSaved(es: seq<Event>) {
    forall e | e in es && e.Finished? :: e.saved
  }

  predicate Increasing(fires: seq<Fire>) {
    forall i | 0 < i < |fires| :: fires[i - 1].slot < fires[i].slot
  }

  lemma {:induction false} IncreasingFar(fires: seq<Fire>, i: nat, j: nat)
    requires Increasing(fires) && i < j < |fires|
    ensures fires[i].slot < fires[j].slot
  {
    if i < j - 1 { IncreasingFar(fires, i, j - 1); }
  }

  /** Corollary: when every scheduled execution records its end, all fired slots are distinct. */
  lemma EachSlotOnce(p: Plan, createdAt: int, es: seq<Event>, i: nat, j: nat)
    requires Computable(p) && ValidRun(p, createdAt, es) && AllSaved(es)
    requires i < j < |Run(p, createdAt, es).fires|
    ensures Run(p, createdAt, es).fires[i].slot < Run(p, createdAt, es).fires[j].slot
  {
    hide ValidRun, Run, Computable, AllSaved;
    FiresRecorded(p, createdAt, es);
    var fires := Run(p, createdAt, es).fires;
    forall k | 0 < k < |fires| ensures fires[k - 1].slot < fires[k].slot {
      SlotsIncrease(p, createdAt, es, k);
    }
    IncreasingFar(fires, i, j);
  }

  /** Every fire but the one under way has been recorded. */
  predicate UpToDate(s: Sched) {
    && (s.running ==> s.fires != [])
    && forall k | 0 <= k < |s.fires| && (k < |s.fires| - 1 || !s.running) :: s.fires[k].recordedAt.Some?
  }

  lemma StepUpToDate(p: Plan, s: Sched, e: Event)
    requires Computable(p) && UpToDate(s) && (e.Ticked? ==> !s.running) && (e.Finished? ==> e.saved)
    ensures UpToDate(Step(p, s, e))
  {
    hide IsNextSlot, IsSlot, Computable;
  }

  lemma AllSavedInit(es: seq<Event>)
    requires es != [] && AllSaved(es)
    ensures AllSaved(es[..|es| - 1]) && (es[|es| - 1].Finished? ==> es[|es| - 1].saved)
  {
    assert forall f | f in es[..|es| - 1] :: f in es;
  }

  lemma {:induction false} FiresRecorded(p: Plan, createdAt: int, es: seq<Event>)
    requires Computable(p) && ValidRun(p, createdAt, es) && AllSaved(es)
    ensures UpToDate(Run(p, createdAt, es))
  {
    if es != [] {
      var init, e := es[..|es| - 1], es[|es| - 1];
      hide Step, UpToDate, Computable;
      AllSavedInit(es);
      FiresRecorded(p, createdAt, init);
      StepUpToDate(p, Run(p, createdAt, init), e);
    }
  }

  // ---------- when a tick fires ----------

  /** Some execution that ended at or after `slot` was recorded. */
  predicate RecordedSince(es: seq<Event>, slot: int) {
    es != [] &&
    (var e := es[|es| - 1];
     RecordedSince(es[..|es| - 1], slot)
     || ((e.Finished? || e.RanNow?) && e.saved && slot <= e.at))
  }

  lemma {:induction false} RecordedEarlier(p: Plan, createdAt: int, es: seq<Event>, slot: int)
    requires Computable(p) && ValidRun(p, createdAt, es) && RecordedSince(es, slot)
    ensures slot <= es[|es| - 1].at
  {
    var init := es[..|es| - 1];
    hide Computable;
    if RecordedSince(init, slot) { RecordedEarlier(p, createdAt, init, slot); }
  }

  lemma BaseAfter(p: Plan, s: Sched, e: Event)
    requires Computable(p)
    ensures Step(p, s, e).base == if (e.Finished? || e.RanNow?) && e.saved then e.at else s.base
  {
    hide NextSlot, Computable;
  }

  /** The base is past a slot exactly if the slot is no later than the creation, or some execution that
      ended at or after it was recorded. */
  lemma {:induction false} BaseSince(p: Plan, createdAt: int, es: seq<Event>, slot: int)
    requires Computable(p) && ValidRun(p, createdAt, es)
    ensures slot <= Run(p, createdAt, es).base <==> slot <= createdAt || RecordedSince(es, slot)
  {
    if es != [] {
      var init, e := es[..|es| - 1], es[|es| - 1];
      hide Computable, Step;
      BaseSince(p, createdAt, init, slot);
      BaseAfter(p, Run(p, createdAt, init), e);
      if RecordedSince(init, slot) { RecordedEarlier(p, createdAt, init, slot); }
    }
  }

  /** `slot` is the latest slot not after `at`. */
  ghost predicate IsLatestSlot(p: Plan, at: int, slot: int)
    requires ParseTimeOfDay(p.timeOfDay).Ok?
  {
    IsSlot(p, slot) && slot <= at && forall s :: IsSlot(p, s) && s <= at ==> s <= slot
  }

  /** Main result: on every run a tick fires exactly if the policy is enabled, the latest slot came after its
      creation and no execution recorded since has ended at or after that slot; otherwise it changes
      nothing. So the first enabled tick after missed slots fires once for all of them. */
  lemma TickFiresIff(p: Plan, createdAt: int, es: seq<Event>, at: int, slot: int)
    requires Computable(p) && ValidRun(p, createdAt, es) && IsLatestSlot(p, at, slot)
    ensures var s := Run(p, createdAt, es);
            var v := Run(p, createdAt, es + [Ticked(at)]);
            if s.enabled && createdAt < slot && !RecordedSince(es, slot)
            then v == s.(running := true, fires := s.fires + [Fire(NextSlot(p, s.base), at, None)])
                 && s.base < NextSlot(p, s.base) <= slot
            else v == s
  {
    var s := Run(p, createdAt, es);
    BaseSince(p, createdAt, es, slot);
    assert (es + [Ticked(at)])[..|es|] == es;
    var next := NextSlot(p, s.base);
    assert s.base < slot ==> next <= slot;
    assert next <= at ==> next <= slot;
    hide Run, RecordedSince, Computable, ValidRun, IsSlot;
  }
}
