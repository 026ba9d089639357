/** Rotation of the superuser password: PostgreSQL's own password, the stored copy every connection of the
    backend uses, and the password the pooler container was started with. A step that fails has no effect,
    and rotations do not overlap. */
module Credentials {
  import opened Wrappers

  type Password = nat
  type ContainerId = nat

  /** `recorded` is the container the metadata names; `running` the one that exists, under the fixed pooler
      name, with the password it was started with. */
  datatype Pooler = Pooler(recorded: ContainerId, running: Option<(ContainerId, Password)>) {
    predicate Linked() {
      running.Some? && running.value.0 == recorded
    }

    predicate Uses(p: Password) {
      running.Some? && running.value.1 == p
    }
  }

  datatype Credentials = Credentials(postgres: Password, stored: Password, pooler: Option<Pooler>) {
    /** The backend can log in. */
    predicate Agree() {
      postgres == stored
    }
  }

  /** Which steps fail on their own account. */
  datatype Faults = Faults(unavailable: bool, unreadable: bool, generate: bool, seal: bool, connect: bool,
                           alter: bool, save: bool, revert: bool,
                           removePooler: bool, createPooler: bool, savePooler: bool)
  {
    predicate BeforeAlter() {
      unavailable || unreadable || generate || seal || connect
    }

    /** ALTER ROLE goes through, then neither saving nor reverting does. */
    predicate Stranding() {
      !BeforeAlter() && !alter && save && revert
    }
  }

  datatype RotateError = NothingDone | Reverted | Stranded

  /** One call, with the password and the container id it would draw. */
  datatype Rotation = Rotation(newPassword: Password, container: ContainerId, faults: Faults)

  // ---------- one rotation ----------

  function RecreatedPooler(p: Pooler, r: Rotation): Pooler {
    if r.faults.removePooler || !p.Linked() then p
    else if r.faults.createPooler then p.(running := None)
    else Pooler(if r.faults.savePooler then p.recorded else r.container, Some((r.container, r.newPassword)))
  }

  function Rotated(c: Credentials, r: Rotation): Credentials {
    if r.faults.BeforeAlter() || !c.Agree() || r.faults.alter then c
    else if !r.faults.save then
      Credentials(r.newPassword, r.newPassword,
                  if c.pooler.Some? then Some(RecreatedPooler(c.pooler.value, r)) else None)
    else if !r.faults.revert then c
    else c.(postgres := r.newPassword)
  }

  function Outcome(c: Credentials, r: Rotation): Result<Password, RotateError> {
    if r.faults.BeforeAlter() || !c.Agree() || r.faults.alter then Err(NothingDone)
    else if !r.faults.save then Ok(r.newPassword)
    else if !r.faults.revert then Err(Reverted)
    else Err(Stranded)
  }

  class ManagedServer {
    var postgres: Password
    var stored: Password
    var pooler: Option<Pooler>

    function State(): Credentials
      reads this
    {
      Credentials(postgres, stored, pooler)
    }

    constructor (initial: Credentials)
      ensures State() == initial
    {
      postgres, stored, pooler := initial.postgres, initial.stored, initial.pooler;
    }

    /** A connection authenticates with the stored password. */
    method ConnectTo(fault: bool) returns (connected: bool)
      ensures connected <==> !fault && State().Agree()
    {
      connected := !fault && stored == postgres;
    }

    method RotateSuperuserPassword(r: Rotation) returns (result: Result<Password, RotateError>)
      modifies this
      ensures State() == Rotated(old(State()), r)
      ensures result == Outcome(old(State()), r)
    {
      if r.faults.unavailable || r.faults.unreadable {
        return Err(NothingDone);
      }
      var oldPassword := stored;
      if r.faults.generate || r.faults.seal {
        return Err(NothingDone);
      }
      var connected := ConnectTo(r.faults.connect);
      if !connected || r.faults.alter {
        return Err(NothingDone);
      }
      postgres := r.newPassword;
      if r.faults.save {
        if r.faults.revert {
          return Err(Stranded);
        }
        postgres := oldPassword;
        return Err(Reverted);
      }
      stored := r.newPassword;
      if pooler.Some? {
        RecreatePooler(r);
      }
      return Ok(r.newPassword);
    }

    /** Removing a container that is not there is an error, and ends the attempt. */
    method RecreatePooler(r: Rotation)
      requires pooler.Some?
      modifies this`pooler
      ensures pooler == Some(RecreatedPooler(old(pooler).value, r))
    {
      var p := pooler.value;
      if r.faults.removePooler || p.running.None? || p.running.value.0 != p.recorded {
        return;
      }
      p := p.(running := None);
      pooler := Some(p);
      if r.faults.createPooler {
        return;
      }
      p := p.(running := Some((r.container, r.newPassword)));
      pooler := Some(p);
      if r.faults.savePooler {
        return;
      }
      pooler := Some(p.(recorded := r.container));
    }
  }

  // ---------- runs ----------

  function Run(c: Credentials, rs: seq<Rotation>): Credentials {
    if rs == [] then c else Rotated(Run(c, rs[..|rs| - 1]), rs[|rs| - 1])
  }

  /** Every password drawn is one the server never had, every container id one never used. */
  predicate Fresh(c: Credentials, rs: seq<Rotation>) {
    rs == [] ||
    (var init, r := rs[..|rs| - 1], rs[|rs| - 1];
     && Fresh(c, init)
     && r.newPassword != c.postgres && r.newPassword != c.stored
     && (forall q | q in init :: r.newPassword != q.newPassword))
  }

  predicate EverStranding(rs: seq<Rotation>) {
    rs != [] && (EverStranding(rs[..|rs| - 1]) || rs[|rs| - 1].faults.Stranding())
  }

  /** The last password a rotation handed out, or the first one. */
  function LastHandedOut(c: Credentials, rs: seq<Rotation>): Password {
    if rs == [] then c.stored
    else
      var init, r := rs[..|rs| - 1], rs[|rs| - 1];
      var outcome := Outcome(Run(c, init), r);
      if outcome.Ok? then outcome.value else LastHandedOut(c, init)
  }

  lemma {:induction false} PostgresDrawn(c: Credentials, rs: seq<Rotation>)
    ensures var p := Run(c, rs).postgres; p == c.postgres || p == c.stored || exists r :: r in rs && r.newPassword == p
  {
    if rs != [] {
      var init, r := rs[..|rs| - 1], rs[|rs| - 1];
      PostgresDrawn(c, init);
      assert rs == init + [r];
      assert r in rs && forall q | q in init :: q in rs;
      hide Run, Faults.BeforeAlter;
      assert Run(c, rs) == Rotated(Run(c, init), r) by { RunStep(c, rs); }
    }
  }

  lemma RunStep(c: Credentials, rs: seq<Rotation>)
    requires rs != []
    ensures Run(c, rs) == Rotated(Run(c, rs[..|rs| - 1]), rs[|rs| - 1])
  {
  }

  /** Main result: after any run of rotations with any pattern of failures, the two passwords agree exactly
      if no rotation altered the role and then failed both to save and to revert. */
  lemma {:induction false} AgreeIff(c: Credentials, rs: seq<Rotation>)
    requires c.Agree() && Fresh(c, rs)
    ensures Run(c, rs).Agree() <==> !EverStranding(rs)
  {
    if rs != [] {
      var init, r := rs[..|rs| - 1], rs[|rs| - 1];
      AgreeIff(c, init);
      PostgresDrawn(c, init);
      RunStep(c, rs);
      hide Run, Rotated, Faults.Stranding, Credentials.Agree;
      AgreeStep(Run(c, init), r);
    }
  }

  lemma AgreeStep(c: Credentials, r: Rotation)
    requires r.newPassword != c.postgres || !c.Agree()
    ensures Rotated(c, r).Agree() <==> c.Agree() && !r.faults.Stranding()
  {
  }

  /** Once they disagree nothing can be rotated any more: every call fails and changes nothing. */
  lemma {:induction false} DisagreementStays(c: Credentials, rs: seq<Rotation>, r: Rotation)
    requires !c.Agree()
    ensures Run(c, rs) == c && Outcome(Run(c, rs), r) == Err(NothingDone)
  {
    if rs != [] {
      DisagreementStays(c, rs[..|rs| - 1], r);
    }
  }

  /** The stored password is always the last one handed out, so that one logs in exactly while the two
      agree; and a failure other than the critical one changed nothing. */
  lemma {:induction false} StoredIsLastHandedOut(c: Credentials, rs: seq<Rotation>)
    ensures Run(c, rs).stored == LastHandedOut(c, rs)
    ensures Run(c, rs).Agree() <==> Run(c, rs).postgres == LastHandedOut(c, rs)
  {
    if rs != [] {
      StoredIsLastHandedOut(c, rs[..|rs| - 1]);
      hide Faults.BeforeAlter, RecreatedPooler;
    }
  }

  /** What the outcome tells the caller. The critical message says the old password still works in
      PostgreSQL; it is the new one that does, and the backend still uses the old one. */
  lemma OutcomeTells(c: Credentials, r: Rotation)
    requires c.Agree() && r.newPassword != c.postgres
    ensures Outcome(c, r).Ok? <==> Rotated(c, r).Agree() && Rotated(c, r).postgres == r.newPassword
    ensures Outcome(c, r) == Err(Stranded) <==>
              Rotated(c, r).postgres == r.newPassword && Rotated(c, r).stored == c.postgres
    ensures Outcome(c, r) in {Err(NothingDone), Err(Reverted)} <==> Rotated(c, r) == c
  {
  }

  /** A rotation goes through exactly if the passwords agreed and no step up to saving the new one failed. */
  lemma SucceedsIff(c: Credentials, r: Rotation)
    ensures Outcome(c, r) == Ok(r.newPassword) <==>
              && c.postgres == c.stored
              && !r.faults.unavailable && !r.faults.unreadable && !r.faults.generate && !r.faults.seal
              && !r.faults.connect && !r.faults.alter && !r.faults.save
    ensures Outcome(c, r).Ok? ==> Outcome(c, r) == Ok(r.newPassword)
    ensures Outcome(c, r) == Err(Reverted) <==>
              c.postgres == c.stored && !r.faults.BeforeAlter() && !r.faults.alter && r.faults.save && !r.faults.revert
  {
  }

  // ---------- the pooler ----------

  /** A pooler no longer linked to its record is never touched by a rotation again, whatever its password. */
  lemma {:induction false} UnlinkedStays(c: Credentials, rs: seq<Rotation>)
    requires c.pooler.Some? && !c.pooler.value.Linked()
    ensures Run(c, rs).pooler == c.pooler
  {
    if rs != [] {
      UnlinkedStays(c, rs[..|rs| - 1]);
      hide Faults.BeforeAlter;
    }
  }

  /** A rotation went through and its pooler step came to grief after removing the old container. */
  predicate Unlinking(c: Credentials, r: Rotation) {
    Outcome(c, r).Ok? && !r.faults.removePooler && (r.faults.createPooler || r.faults.savePooler)
  }

  predicate EverUnlinking(c: Credentials, rs: seq<Rotation>) {
    rs != [] && (EverUnlinking(c, rs[..|rs| - 1]) || Unlinking(Run(c, rs[..|rs| - 1]), rs[|rs| - 1]))
  }

  predicate FreshContainers(c: Credentials, rs: seq<Rotation>) {
    rs == [] ||
    (var init, r := rs[..|rs| - 1], rs[|rs| - 1];
     && FreshContainers(c, init)
     && (c.pooler.Some? ==> r.container != c.pooler.value.recorded)
     && (forall q | q in init :: r.container != q.container))
  }

  lemma LinkedStep(c: Credentials, r: Rotation)
    requires c.pooler.Some? && r.container != c.pooler.value.recorded
    ensures Rotated(c, r).pooler.Some?
    ensures Rotated(c, r).pooler.value.Linked() <==> c.pooler.value.Linked() && !Unlinking(c, r)
  {
  }

  lemma {:induction false} RecordedDrawn(c: Credentials, rs: seq<Rotation>)
    requires c.pooler.Some?
    ensures Run(c, rs).pooler.Some?
    ensures var id := Run(c, rs).pooler.value.recorded;
            id == c.pooler.value.recorded || exists r :: r in rs && r.container == id
  {
    if rs != [] {
      var init, r := rs[..|rs| - 1], rs[|rs| - 1];
      RecordedDrawn(c, init);
      assert rs == init + [r];
      assert r in rs && forall q | q in init :: q in rs;
      RunStep(c, rs);
      hide Run, Faults.BeforeAlter;
    }
  }

  /** Main result: starting from a linked pooler, it is still linked after a run exactly if no successful
      rotation removed its container and then failed to create or to record the new one. */
  lemma {:induction false} PoolerLinkedIff(c: Credentials, rs: seq<Rotation>)
    requires c.pooler.Some? && c.pooler.value.Linked() && FreshContainers(c, rs)
    ensures Run(c, rs).pooler.Some?
    ensures Run(c, rs).pooler.value.Linked() <==> !EverUnlinking(c, rs)
  {
    if rs != [] {
      var init, r := rs[..|rs| - 1], rs[|rs| - 1];
      PoolerLinkedIff(c, init);
      RecordedDrawn(c, init);
      RunStep(c, rs);
      hide Run, Unlinking, Rotated;
      LinkedStep(Run(c, init), r);
    }
  }

  /** After a rotation goes through, a linked pooler uses the new password exactly if it was removed and
      created again; only when that failed at the removal will a later rotation put it right. */
  lemma PoolerAfterRotation(c: Credentials, r: Rotation)
    requires c.pooler.Some? && c.pooler.value.Linked() && Outcome(c, r).Ok?
    requires r.newPassword != c.pooler.value.running.value.1 && r.container != c.pooler.value.recorded
    ensures var after := Rotated(c, r).pooler.value;
            && (after.Uses(Rotated(c, r).postgres) <==> !r.faults.removePooler && !r.faults.createPooler)
            && (after.Linked() && !after.Uses(Rotated(c, r).postgres) <==> r.faults.removePooler)
  {
  }
}
