/** Alert rules: the sweep that checks them, its cooldown, and the deadlock counter it keeps per rule. */
module Alerts {
  import opened Wrappers

  const SECOND := 1_000_000
  const ALERT_COOLDOWN := 15 * 60 * SECOND

  type Id = nat

  datatype Destination = Channel | Webhook | Nowhere

  datatype Rule = Rule(deadlocks: bool, threshold: real, destination: Destination, enabled: bool,
                       lastTriggered: Option<int>, lastValue: Option<real>, lastDeadlocks: int)

  /** What a sweep meets at one rule: when it looks, sends and saves; the metric, if the server runs and
      answers (the deadlock metric is the server's running total); whether the rule's channel still exists;
      and which of its writes reach the database. */
  datatype Visit = Visit(id: Id, at: int, sentAt: int, savedAt: int, reading: Option<real>, channelFound: bool,
                         countSaved: bool, valueSaved: bool, triggerSaved: bool)

  /** A notification handed to its channel; `marked` if the trigger time was then saved. */
  datatype Notice = Notice(id: Id, at: int, value: real, marked: bool)

  datatype World = World(rules: map<Id, Rule>, sent: seq<Notice>)

  // ---------- one visit ----------

  predicate Cooling(r: Rule, at: int) {
    r.lastTriggered.Some? && at - r.lastTriggered.value < ALERT_COOLDOWN
  }

  /** The sweep gets to the rule's metric. */
  predicate Checked(r: Rule, v: Visit) {
    r.enabled && !Cooling(r, v.at) && v.reading.Some?
  }

  /** The value compared with the threshold. */
  function Measured(r: Rule, v: Visit): real
    requires v.reading.Some?
  {
    if r.deadlocks then v.reading.value - r.lastDeadlocks as real else v.reading.value
  }

  predicate Fires(r: Rule, v: Visit) {
    Checked(r, v) && Measured(r, v) >= r.threshold
  }

  function RuleAfter(r: Rule, v: Visit): Rule {
    if !Checked(r, v) then r
    else r.(
      lastDeadlocks := if r.deadlocks && v.countSaved then v.reading.value.Floor else r.lastDeadlocks,
      lastValue := if v.valueSaved then Some(Measured(r, v)) else r.lastValue,
      lastTriggered := if Fires(r, v) && v.triggerSaved then Some(v.savedAt) else r.lastTriggered)
  }

  predicate Sends(r: Rule, v: Visit) {
    Fires(r, v) && (r.destination.Webhook? || (r.destination.Channel? && v.channelFound))
  }

  function Visited(w: World, v: Visit): World {
    if v.id !in w.rules then w
    else
      var r := w.rules[v.id];
      World(w.rules[v.id := RuleAfter(r, v)],
            if Sends(r, v) then w.sent + [Notice(v.id, v.sentAt, Measured(r, v), v.triggerSaved)] else w.sent)
  }

  function VisitAll(w: World, vs: seq<Visit>): World {
    if vs == [] then w else Visited(VisitAll(w, vs[..|vs| - 1]), vs[|vs| - 1])
  }

  predicate DistinctIds(vs: seq<Visit>) {
    forall i, j | 0 <= i < j < |vs| :: vs[i].id != vs[j].id
  }

  lemma {:induction false} UnvisitedUnchanged(w: World, vs: seq<Visit>, id: Id)
    requires forall v | v in vs :: v.id != id
    ensures id in VisitAll(w, vs).rules <==> id in w.rules
    ensures id in w.rules ==> VisitAll(w, vs).rules[id] == w.rules[id]
  {
    if vs != [] {
      UnvisitedUnchanged(w, vs[..|vs| - 1], id);
      hide RuleAfter, Sends;
    }
  }

  /** A visit that gets to the metric, field by field. */
  lemma CheckedIs(r: Rule, v: Visit)
    requires r.enabled && !Cooling(r, v.at) && v.reading.Some?
    ensures var after, value := RuleAfter(r, v), Measured(r, v);
            && after == r.(lastDeadlocks := after.lastDeadlocks, lastValue := after.lastValue, lastTriggered := after.lastTriggered)
            && after.lastDeadlocks == (if r.deadlocks && v.countSaved then v.reading.value.Floor else r.lastDeadlocks)
            && after.lastValue == (if v.valueSaved then Some(value) else r.lastValue)
            && after.lastTriggered == (if value >= r.threshold && v.triggerSaved then Some(v.savedAt) else r.lastTriggered)
            && (Sends(r, v) <==> value >= r.threshold && (r.destination.Webhook? || (r.destination.Channel? && v.channelFound)))
  {
  }

  /** When a rule fires, read off the row and the visit: it is enabled, fifteen minutes have passed since its last
      saved trigger, and the reading, less the saved count for deadlocks, has reached the threshold. */
  lemma FiresIff(r: Rule, v: Visit)
    ensures Fires(r, v) <==>
              && r.enabled
              && (r.lastTriggered.Some? ==> r.lastTriggered.value + 900_000_000 <= v.at)
              && v.reading.Some?
              && r.threshold <= v.reading.value - if r.deadlocks then r.lastDeadlocks as real else 0.0
    ensures Sends(r, v) <==> Fires(r, v) && ((r.destination.Channel? && v.channelFound) || r.destination.Webhook?)
  {
  }

  /** What a visit leaves in the row besides the counter and the trigger time: the value it compared, if it got to
      the metric and that write was saved. */
  lemma LastValueTells(r: Rule, v: Visit)
    ensures var after := RuleAfter(r, v);
            && after == r.(lastDeadlocks := after.lastDeadlocks, lastValue := after.lastValue, lastTriggered := after.lastTriggered)
            && (!r.deadlocks ==> after.lastDeadlocks == r.lastDeadlocks)
            && after.lastValue ==
                 if Checked(r, v) && v.valueSaved
                 then Some(v.reading.value - if r.deadlocks then r.lastDeadlocks as real else 0.0)
                 else r.lastValue
  {
  }

  /** A notice carries the value that was compared, and goes out at the time of sending. */
  lemma NoticeTells(w: World, v: Visit)
    requires v.id in w.rules && Sends(w.rules[v.id], v)
    ensures v.reading.Some? && |Visited(w, v).sent| == |w.sent| + 1
    ensures var r, n := w.rules[v.id], Visited(w, v).sent[|w.sent|];
            && n.id == v.id && n.at == v.sentAt && n.marked == v.triggerSaved && r.threshold <= n.value
            && n.value == v.reading.value - if r.deadlocks then r.lastDeadlocks as real else 0.0
  {
  }

  class AlertService {
    var rules: map<Id, Rule>
    var sent: seq<Notice>

    function State(): World
      reads this
    {
      World(rules, sent)
    }

    constructor ()
      ensures State() == World(map[], [])
    {
      rules, sent := map[], [];
    }

    /** The sweep reads all its rules first and then goes through them one at a time. */
    method SweepAlertRulesOnce(visits: seq<Visit>)
      requires DistinctIds(visits) && forall v | v in visits :: v.id in rules && rules[v.id].enabled
      modifies this
      ensures State() == VisitAll(old(State()), visits)
    {
      var snapshot := rules;
      for k := 0 to |visits|
        invariant State() == VisitAll(old(State()), visits[..k])
      {
        var v := visits[k];
        UnvisitedUnchanged(old(State()), visits[..k], v.id);
        assert visits[..k + 1][..k] == visits[..k];
        assert v in visits;
        CheckRule(snapshot[v.id], v);
      }
      assert visits[..|visits|] == visits;
    }

    /** One turn of the loop; `rr` is the row as read at the start of the sweep. */
    method CheckRule(rr: Rule, v: Visit)
      requires v.id in rules && rules[v.id] == rr && rr.enabled
      modifies this
      ensures State() == Visited(old(State()), v)
    {
      if rr.lastTriggered.Some? && v.at - rr.lastTriggered.value < ALERT_COOLDOWN {
        assert rules[v.id := rr] == rules;
        return;
      }
      if v.reading.None? {
        assert rules[v.id := rr] == rules;
        return;
      }
      CheckedIs(rr, v);
      var value := v.reading.value;
      var breached := value >= rr.threshold;
      if rr.deadlocks {
        var delta := value - rr.lastDeadlocks as real;
        breached := delta >= rr.threshold;
        if v.countSaved {
          rules := rules[v.id := rules[v.id].(lastDeadlocks := value.Floor)];
        }
        value := delta;
      }
      if v.valueSaved {
        rules := rules[v.id := rules[v.id].(lastValue := Some(value))];
      }
      if breached {
        if (rr.destination.Channel? && v.channelFound) || rr.destination.Webhook? {
          sent := sent + [Notice(v.id, v.sentAt, value, v.triggerSaved)];
        }
        if v.triggerSaved {
          rules := rules[v.id := rules[v.id].(lastTriggered := Some(v.savedAt))];
        }
      }
      hide RuleAfter, Sends;
      assert rules[v.id] == RuleAfter(rr, v);
      assert rules == old(rules)[v.id := RuleAfter(rr, v)];
    }
  }

  // ---------- runs ----------

  /** `total` is the server's deadlock total when the rule is created; creation does not look at it. A rule that
      loses its channel, which has been deleted, is left with its webhook, if it has one. */
  datatype Event =
    | Create(id: Id, deadlocks: bool, threshold: real, destination: Destination, total: real)
    | SetEnabled(id: Id, enabled: bool)
    | LoseChannel(id: Id, webhook: bool)
    | Delete(id: Id)
    | Check(visit: Visit)

  function Step(w: World, e: Event): World {
    match e
    case Create(id, deadlocks, threshold, destination, _) =>
      w.(rules := w.rules[id := Rule(deadlocks, threshold, destination, true, None, None, 0)])
    case SetEnabled(id, enabled) =>
      if id in w.rules then w.(rules := w.rules[id := w.rules[id].(enabled := enabled)]) else w
    case LoseChannel(id, webhook) =>
      if id !in w.rules || !w.rules[id].destination.Channel? then w
      else w.(rules := w.rules[id := w.rules[id].(destination := if webhook then Webhook else Nowhere)])
    case Delete(id) => w.(rules := w.rules - {id})
    case Check(v) => Visited(w, v)
  }

  function Run(es: seq<Event>): World {
    if es == [] then World(map[], []) else Step(Run(es[..|es| - 1]), es[|es| - 1])
  }

  predicate Created(es: seq<Event>, id: Id) {
    exists e :: e in es && e.Create? && e.id == id
  }

  /** Ids are never reused; a visit looks, then sends, then saves. */
  predicate Plausible(es: seq<Event>) {
    es == [] ||
    (var init, e := es[..|es| - 1], es[|es| - 1];
     && Plausible(init)
     && (e.Create? ==> !Created(init, e.id))
     && (e.Check? ==> e.visit.at <= e.visit.sentAt <= e.visit.savedAt))
  }

  /** Notices of one rule keep the cooldown after every marked one. */
  predicate Spaced(sent: seq<Notice>) {
    forall i, j | 0 <= i < j < |sent| && sent[i].id == sent[j].id && sent[i].marked ::
      sent[i].at + ALERT_COOLDOWN <= sent[j].at
  }

  predicate TriggersKept(w: World) {
    forall n | n in w.sent && n.marked && n.id in w.rules :: TriggerSince(w.rules[n.id], n.at)
  }

  predicate TriggerSince(r: Rule, at: int) {
    r.lastTriggered.Some? && at <= r.lastTriggered.value
  }

  predicate AllCreated(es: seq<Event>) {
    && (forall id | id in Run(es).rules :: Created(es, id))
    && (forall n | n in Run(es).sent :: Created(es, n.id))
  }

  lemma CreatedGrows(es: seq<Event>, id: Id)
    requires es != [] && Created(es[..|es| - 1], id)
    ensures Created(es, id)
  {
    var e :| e in es[..|es| - 1] && e.Create? && e.id == id;
    assert e in es;
  }

  lemma {:induction false} EverythingCreated(es: seq<Event>)
    ensures AllCreated(es)
  {
    if es != [] {
      var init, e := es[..|es| - 1], es[|es| - 1];
      EverythingCreated(init);
      assert e in es;
      forall id | Created(init, id) ensures Created(es, id) { CreatedGrows(es, id); }
      hide RuleAfter, Sends, Measured;
    }
  }

  lemma VisitSpaced(w: World, v: Visit)
    requires Spaced(w.sent) && TriggersKept(w) && v.at <= v.sentAt <= v.savedAt
    ensures Spaced(Visited(w, v).sent) && TriggersKept(Visited(w, v))
  {
    if v.id in w.rules {
      var r, after := w.rules[v.id], Visited(w, v);
      forall n | n in w.sent && n.marked && n.id == v.id
        ensures TriggerSince(RuleAfter(r, v), n.at)
        ensures Checked(r, v) ==> n.at + ALERT_COOLDOWN <= v.sentAt
      {
        assert TriggerSince(r, n.at);
      }
      assert Sends(r, v) ==> Fires(r, v) && Checked(r, v);
      assert Sends(r, v) && v.triggerSaved ==> TriggerSince(RuleAfter(r, v), v.sentAt);
      hide RuleAfter, Sends, Fires, Checked, Measured, TriggerSince;
      var sent := after.sent;
      forall i, j | 0 <= i < j < |sent| && sent[i].id == sent[j].id && sent[i].marked
        ensures sent[i].at + ALERT_COOLDOWN <= sent[j].at
      {
        assert sent[i] == w.sent[i] && w.sent[i] in w.sent;
        if j < |w.sent| { assert sent[j] == w.sent[j]; }
      }
    }
  }

  lemma {:induction false} RunSpaced(es: seq<Event>)
    requires Plausible(es)
    ensures Spaced(Run(es).sent) && TriggersKept(Run(es))
  {
    if es != [] {
      var init, e := es[..|es| - 1], es[|es| - 1];
      RunSpaced(init);
      EverythingCreated(init);
      if e.Check? { VisitSpaced(Run(init), e.visit); }
      hide Visited, Spaced, Created;
    }
  }

  /** Main result: on every run, two notifications of one rule are at least fifteen minutes apart whenever
      the trigger time of the earlier one was saved, however many lie between them. */
  lemma NotificationsSpaced(es: seq<Event>, i: nat, j: nat)
    requires Plausible(es) && i < j < |Run(es).sent|
    requires Run(es).sent[i].id == Run(es).sent[j].id && Run(es).sent[i].marked
    ensures Run(es).sent[i].at + ALERT_COOLDOWN <= Run(es).sent[j].at
  {
    RunSpaced(es);
  }

  /** A firing starts a cooldown that holds whatever is measured next exactly if its trigger time was saved:
      an unsaved one can be followed by another firing at once. */
  lemma CooldownIff(r: Rule, v: Visit)
    requires Fires(r, v) && v.at <= v.savedAt
    ensures (forall u: Visit | v.savedAt <= u.at < v.savedAt + ALERT_COOLDOWN :: !Fires(RuleAfter(r, v), u))
       <==> v.triggerSaved
  {
    var after := RuleAfter(r, v);
    if !v.triggerSaved {
      var enough := r.threshold.Floor + 1 + if r.deadlocks then after.lastDeadlocks else 0;
      var u := v.(at := v.savedAt, reading := Some(enough as real));
      assert Fires(after, u);
    }
  }

  // ---------- what was entered ----------

  /** The last setting of the switch since the rule was created. */
  function SwitchedOn(es: seq<Event>, id: Id): bool {
    if es == [] then false
    else
      var e := es[|es| - 1];
      if e.Create? && e.id == id then true
      else if e.SetEnabled? && e.id == id then e.enabled
      else SwitchedOn(es[..|es| - 1], id)
  }

  lemma EnteredStep(w: World, e: Event, id: Id)
    requires id in Step(w, e).rules && !(e.Create? && e.id == id)
    ensures id in w.rules
    ensures var r, after := w.rules[id], Step(w, e).rules[id];
            && after.deadlocks == r.deadlocks && after.threshold == r.threshold
            && after.enabled == if e.SetEnabled? && e.id == id then e.enabled else r.enabled
  {
  }

  /** A rule keeps the metric and the threshold it was created with, and is enabled from its creation on as it was
      last switched. */
  lemma {:induction false} RuleAsEntered(es: seq<Event>, id: Id) returns (k: nat)
    requires id in Run(es).rules
    ensures k < |es| && es[k].Create? && es[k].id == id
    ensures var r := Run(es).rules[id];
            r.deadlocks == es[k].deadlocks && r.threshold == es[k].threshold && r.enabled == SwitchedOn(es, id)
  {
    var n := |es| - 1;
    if es[n].Create? && es[n].id == id {
      k := n;
    } else {
      EnteredStep(Run(es[..n]), es[n], id);
      hide Step;
      k := RuleAsEntered(es[..n], id);
    }
  }

  // ---------- the deadlock counter ----------

  /** A visit that measures the deadlocks of `id`. */
  predicate Measures(w: World, e: Event, id: Id) {
    e.Check? && e.visit.id == id && id in w.rules && w.rules[id].deadlocks && Checked(w.rules[id], e.visit)
  }

  function MeasuredBy(w: World, e: Event, id: Id): real
    requires Measures(w, e, id)
  {
    Measured(w.rules[id], e.visit)
  }

  /** Everything ever measured for `id`, by visits whose counter write went through or not. */
  function MeasuredDeadlocks(es: seq<Event>, id: Id): real {
    if es == [] then 0.0
    else
      var init, e := es[..|es| - 1], es[|es| - 1];
      MeasuredDeadlocks(init, id) + if Measures(Run(init), e, id) then MeasuredBy(Run(init), e, id) else 0.0
  }

  /** What the visits measured whose counter write was lost. */
  function UnsavedDeadlocks(es: seq<Event>, id: Id): real {
    if es == [] then 0.0
    else
      var init, e := es[..|es| - 1], es[|es| - 1];
      UnsavedDeadlocks(init, id)
        + if Measures(Run(init), e, id) && !e.visit.countSaved then MeasuredBy(Run(init), e, id) else 0.0
  }

  /** The server's total at the last visit that saved it; zero before the first. */
  function LastTotal(es: seq<Event>, id: Id): real {
    if es == [] then 0.0
    else
      var init, e := es[..|es| - 1], es[|es| - 1];
      if Measures(Run(init), e, id) && e.visit.countSaved then e.visit.reading.value else LastTotal(init, id)
  }

  /** Totals are whole numbers. */
  predicate WholeTotals(es: seq<Event>, id: Id) {
    forall e | e in es && e.Check? && e.visit.id == id && e.visit.reading.Some? ::
      e.visit.reading.value == e.visit.reading.value.Floor as real
  }

  lemma {:induction false} UncreatedUncounted(es: seq<Event>, id: Id)
    requires !Created(es, id)
    ensures MeasuredDeadlocks(es, id) == 0.0 && UnsavedDeadlocks(es, id) == 0.0 && LastTotal(es, id) == 0.0
    ensures PreviousCheck(es, id).None?
  {
    if es != [] {
      var init := es[..|es| - 1];
      EverythingCreated(init);
      if Created(init, id) { CreatedGrows(es, id); }
      UncreatedUncounted(init, id);
      hide Created, Checked, Measured;
    }
  }

  lemma CountStep(w: World, e: Event, id: Id)
    requires id in Step(w, e).rules && !(e.Create? && e.id == id)
    ensures id in w.rules && w.rules[id].deadlocks == Step(w, e).rules[id].deadlocks
    ensures Measures(w, e, id) ==>
              && e.visit.reading.Some?
              && MeasuredBy(w, e, id) == e.visit.reading.value - w.rules[id].lastDeadlocks as real
    ensures Step(w, e).rules[id].lastDeadlocks ==
              if Measures(w, e, id) && e.visit.countSaved then e.visit.reading.value.Floor
              else w.rules[id].lastDeadlocks
  {
  }

  /** Main result: whatever the cooldowns, lost writes and switching, all that was ever measured for a rule
      adds up to the server's total at the last saved count, plus what the visits with a lost counter write
      measured: each of those is measured again by the next visit. The count starts from zero. */
  lemma {:induction false} DeadlocksAddUp(es: seq<Event>, id: Id)
    requires Plausible(es) && WholeTotals(es, id) && id in Run(es).rules && Run(es).rules[id].deadlocks
    ensures LastTotal(es, id) == Run(es).rules[id].lastDeadlocks as real
    ensures MeasuredDeadlocks(es, id) == LastTotal(es, id) + UnsavedDeadlocks(es, id)
  {
    var init, e := es[..|es| - 1], es[|es| - 1];
    assert e in es && forall f | f in init :: f in es;
    if e.Create? && e.id == id {
      UncreatedUncounted(init, id);
    } else {
      DeadlocksAddUp(init, id);
      CountStep(Run(init), e, id);
      hide Created, Measures, MeasuredBy, Step;
    }
  }

  /** The server's total never falls between visits that measure it. */
  predicate RisingTotals(es: seq<Event>, id: Id) {
    es == [] ||
    (var init, e := es[..|es| - 1], es[|es| - 1];
     RisingTotals(init, id) && (Measures(Run(init), e, id) ==> LastTotal(init, id) <= e.visit.reading.value))
  }

  /** Some visit with a lost counter write measured a deadlock. */
  predicate LostDeadlocks(es: seq<Event>, id: Id) {
    es != [] &&
    (var init, e := es[..|es| - 1], es[|es| - 1];
     || LostDeadlocks(init, id)
     || (Measures(Run(init), e, id) && !e.visit.countSaved && MeasuredBy(Run(init), e, id) != 0.0))
  }

  lemma {:induction false} UnsavedZeroIff(es: seq<Event>, id: Id)
    requires Plausible(es) && WholeTotals(es, id) && RisingTotals(es, id)
    ensures UnsavedDeadlocks(es, id) >= 0.0
    ensures UnsavedDeadlocks(es, id) == 0.0 <==> !LostDeadlocks(es, id)
  {
    if es != [] {
      var init, e := es[..|es| - 1], es[|es| - 1];
      assert forall f | f in init :: f in es;
      UnsavedZeroIff(init, id);
      if Measures(Run(init), e, id) {
        DeadlocksAddUp(init, id);
        assert MeasuredBy(Run(init), e, id) >= 0.0;
      }
      hide Measures, MeasuredBy, WholeTotals, Created;
    }
  }

  /** While the total never falls, everything measured adds up to the total at the last count, no deadlock
      measured twice, if and only if no visit that measured one lost its counter write. */
  lemma DeadlocksOnceIff(es: seq<Event>, id: Id)
    requires Plausible(es) && WholeTotals(es, id) && RisingTotals(es, id)
    requires id in Run(es).rules && Run(es).rules[id].deadlocks
    ensures MeasuredDeadlocks(es, id) == LastTotal(es, id) <==> !LostDeadlocks(es, id)
  {
    DeadlocksAddUp(es, id);
    UnsavedZeroIff(es, id);
  }

  // ---------- "new deadlocks since the last check" ----------

  /** The last visit that measured `id`, with what it measured. */
  function PreviousCheck(es: seq<Event>, id: Id): (r: Option<(Visit, real)>)
    ensures r.Some? ==> r.value.0.reading.Some?
  {
    if es == [] then None
    else
      var init, e := es[..|es| - 1], es[|es| - 1];
      if Measures(Run(init), e, id) then Some((e.visit, MeasuredBy(Run(init), e, id))) else PreviousCheck(init, id)
  }

  function TotalAtCreation(es: seq<Event>, id: Id): real {
    if es == [] then 0.0
    else
      var e := es[|es| - 1];
      if e.Create? && e.id == id then e.total else TotalAtCreation(es[..|es| - 1], id)
  }

  lemma {:induction false} PreviousCheckMeaning(es: seq<Event>, id: Id)
    requires Plausible(es) && WholeTotals(es, id) && id in Run(es).rules && Run(es).rules[id].deadlocks
    ensures match PreviousCheck(es, id)
            case None => Run(es).rules[id].lastDeadlocks == 0
            case Some((p, measured)) =>
              Run(es).rules[id].lastDeadlocks as real == p.reading.value - if p.countSaved then 0.0 else measured
  {
    var init, e := es[..|es| - 1], es[|es| - 1];
    assert e in es && forall f | f in init :: f in es;
    if e.Create? && e.id == id {
      UncreatedUncounted(init, id);
    } else {
      PreviousCheckMeaning(init, id);
      CountStep(Run(init), e, id);
      hide Created, Measures, MeasuredBy, Step;
    }
  }

  /** The server's total at the previous check, or at the creation of the rule before the first one. */
  function TotalBefore(es: seq<Event>, id: Id): real {
    match PreviousCheck(es, id)
    case None => TotalAtCreation(es, id)
    case Some((p, _)) => p.reading.value
  }

  /** What a check counts on top of the change of the total since then: the total a new rule finds, or what
      the previous check measured if its counter write was lost. */
  function Carried(es: seq<Event>, id: Id): real {
    match PreviousCheck(es, id)
    case None => TotalAtCreation(es, id)
    case Some((p, measured)) => if p.countSaved then 0.0 else measured
  }

  /** The metric is described as the new deadlocks since the last check. The total it reads is a sum over the
      databases of the server: it grows by the deadlocks that happen and shrinks by those that go with a
      dropped database or a reset of the statistics. A check measures exactly the deadlocks that happened
      since the check before, or since the creation of the rule, if and only if the total has lost since then
      exactly what is counted on top: nothing after a saved counter, what the check before measured after a
      lost one, and the whole total at the creation of the rule for a first check. */
  lemma MeasuresNewIff(es: seq<Event>, v: Visit, happened: real, lost: real)
    requires Plausible(es) && WholeTotals(es, v.id) && Measures(Run(es), Check(v), v.id)
    requires v.reading.value == TotalBefore(es, v.id) + happened - lost
    ensures MeasuredBy(Run(es), Check(v), v.id) == happened <==> lost == Carried(es, v.id)
  {
    PreviousCheckMeaning(es, v.id);
  }

  function LostCounter(): seq<Event> {
    [Create(1, true, 3.0, Webhook, 0.0),
     Check(Visit(1, 0, 0, 0, Some(5.0), false, false, true, true)),
     Check(Visit(1, 2 * ALERT_COOLDOWN, 2 * ALERT_COOLDOWN, 2 * ALERT_COOLDOWN, Some(5.0), false, true, true, true))]
  }

  /** A lost counter write: five deadlocks in all, and two notifications of five each. */
  lemma LostCounterNotifiesTwice()
    ensures Plausible(LostCounter())
    ensures Run(LostCounter()).sent == [Notice(1, 0, 5.0, true), Notice(1, 2 * ALERT_COOLDOWN, 5.0, true)]
    ensures MeasuredDeadlocks(LostCounter(), 1) == 10.0 && LastTotal(LostCounter(), 1) == 5.0
  {
    var es := LostCounter();
    RunAppend([], es[0], 1);
    RunAppend([es[0]], es[1], 1);
    RunAppend([es[0], es[1]], es[2], 1);
    assert [] + [es[0]] == [es[0]] && [es[0]] + [es[1]] == [es[0], es[1]] && [es[0], es[1]] + [es[2]] == es;
  }

  /** A rule created on a server that has had five deadlocks notifies of them at its first check. */
  lemma OldDeadlocksNotify()
    ensures var es := [Create(1, true, 3.0, Webhook, 5.0), Check(Visit(1, 0, 0, 0, Some(5.0), false, true, true, true))];
            && Plausible(es)
            && Run(es).sent == [Notice(1, 0, 5.0, true)]
  {
    var create, check := Create(1, true, 3.0, Webhook, 5.0), Check(Visit(1, 0, 0, 0, Some(5.0), false, true, true, true));
    RunAppend([], create, 1);
    RunAppend([create], check, 1);
    assert [] + [create] == [create] && [create] + [check] == [create, check];
  }

  /** Five deadlocks are counted, their database is dropped, two more happen: the check measures -3 and a rule
      that asks for two stays silent. */
  lemma DroppedDatabaseHides()
    ensures var es := [Create(1, true, 2.0, Webhook, 0.0), Check(Visit(1, 0, 0, 0, Some(5.0), false, true, true, true))];
            var v := Visit(1, 2 * ALERT_COOLDOWN, 2 * ALERT_COOLDOWN, 2 * ALERT_COOLDOWN, Some(5.0 + 2.0 - 5.0), false, true, true, true);
            && Plausible(es + [Check(v)])
            && Measures(Run(es), Check(v), 1)
            && MeasuredBy(Run(es), Check(v), 1) == -3.0
            && Run(es + [Check(v)]).sent == Run(es).sent == [Notice(1, 0, 5.0, true)]
  {
    var create, check := Create(1, true, 2.0, Webhook, 0.0), Check(Visit(1, 0, 0, 0, Some(5.0), false, true, true, true));
    var v := Visit(1, 2 * ALERT_COOLDOWN, 2 * ALERT_COOLDOWN, 2 * ALERT_COOLDOWN, Some(5.0 + 2.0 - 5.0), false, true, true, true);
    RunAppend([], create, 1);
    RunAppend([create], check, 1);
    assert [] + [create] == [create] && [create] + [check] == [create, check];
    RunAppend([create, check], Check(v), 1);
  }

  lemma RunAppend(es: seq<Event>, e: Event, id: Id)
    ensures Run(es + [e]) == Step(Run(es), e)
    ensures Plausible(es + [e])
       <==> && Plausible(es) && (e.Create? ==> !Created(es, e.id))
            && (e.Check? ==> e.visit.at <= e.visit.sentAt <= e.visit.savedAt)
    ensures MeasuredDeadlocks(es + [e], id)
         == MeasuredDeadlocks(es, id) + if Measures(Run(es), e, id) then MeasuredBy(Run(es), e, id) else 0.0
    ensures LastTotal(es + [e], id)
         == if Measures(Run(es), e, id) && e.visit.countSaved then e.visit.reading.value else LastTotal(es, id)
  {
    assert (es + [e])[..|es|] == es;
  }
}
