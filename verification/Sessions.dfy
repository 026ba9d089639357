/** Panel sessions: sliding expiry, absolute ceiling, step-up and revocation. A session row is keyed by its
    token; the empty token, refused before any lookup, counts as one that was never issued. */
module Sessions {
  import opened Wrappers
  import opened LoginThrottle

  const DAY := 86_400 * SECOND
  const SESSION_TTL := 30 * DAY
  const STEP_UP_TTL := 5 * 60 * SECOND
  const SESSION_ABSOLUTE_CEILING := 90 * DAY
  const SESSION_LOG_RETENTION := 90 * DAY

  type Token = nat

  datatype Session = Session(
    created: int, lastSeen: int, expires: int, elevatedUntil: Option<int>, revokedAt: Option<int>)

  type Table = map<Token, Session>

  /** What a validated request sees of its session. */
  datatype View = View(expiresAt: int, elevatedUntil: Option<int>) {
    predicate Elevated(now: int) {
      elevatedUntil.Some? && now < elevatedUntil.value
    }
  }

  /** The database statement of an operation that fails, if any. */
  datatype Io = Works | LookupFails | WriteFails

  datatype AuthError = InvalidCredentials | RateLimited | NotFound | DatabaseError

  predicate Live(s: Session, now: int) {
    s.expires > now && s.revokedAt.None?
  }

  /** The live sessions, as the session screen lists them. */
  function ActiveSessions(t: Table, now: int): set<Token> {
    set tok | tok in t && Live(t[tok], now)
  }

  // ---------- operations on the table ----------

  function Inserted(t: Table, tok: Token, now: int): Table {
    t[tok := Session(now, now, now + SESSION_TTL, None, None)]
  }

  function Revoked(t: Table, tok: Token, now: int): Table {
    if tok in t && t[tok].revokedAt.None? then t[tok := t[tok].(revokedAt := Some(now))] else t
  }

  /** `saved` says whether the write after the lookup reached the database. */
  function Validated(t: Table, tok: Token, now: int, saved: bool): Table {
    if tok !in t || !Live(t[tok], now) || !saved then t
    else if now - t[tok].created > SESSION_ABSOLUTE_CEILING then t[tok := t[tok].(revokedAt := Some(now))]
    else t[tok := t[tok].(lastSeen := now, expires := now + SESSION_TTL)]
  }

  function ValidateOutcome(t: Table, tok: Token, now: int): Option<View> {
    if tok !in t || !Live(t[tok], now) || now - t[tok].created > SESSION_ABSOLUTE_CEILING then None
    else Some(View(now + SESSION_TTL, t[tok].elevatedUntil))
  }

  /** The revocation mark is not looked at: only expiry and the password are. */
  predicate StepUpAllowed(t: Table, tok: Token, now: int, right: bool) {
    tok in t && t[tok].expires > now && right
  }

  function SteppedUp(t: Table, tok: Token, now: int, right: bool): Table {
    if StepUpAllowed(t, tok, now, right) then t[tok := t[tok].(elevatedUntil := Some(now + STEP_UP_TTL))] else t
  }

  predicate Sweepable(s: Session, now: int) {
    (s.revokedAt.Some? || s.expires < now) && s.created < now - SESSION_LOG_RETENTION
  }

  function Swept(t: Table, now: int): Table {
    map tok | tok in t && !Sweepable(t[tok], now) :: t[tok]
  }

  class AuthService {
    const throttle: Throttle
    var sessions: Table

    constructor ()
      ensures fresh(throttle) && throttle.attempts == map[] && sessions == map[]
    {
      throttle := new Throttle();
      sessions := map[];
    }

    /** `credentials` is what the user lookup and password comparison found, `token` the fresh random token,
        `inserted` whether the session row could be written. */
    method Login(clientKey: string, checkedAt: int, recordedAt: int, credentials: Credentials,
                 token: Token, now: int, inserted: bool)
      returns (r: Result<Token, AuthError>)
      modifies this, throttle
      ensures throttle.attempts
           == After(old(throttle.attempts), Attempt(clientKey, checkedAt, recordedAt, credentials))
      ensures r.Ok? <==> !Locked(old(throttle.attempts), clientKey, checkedAt) && credentials.Right? && inserted
      ensures r == Err(RateLimited) <==> Locked(old(throttle.attempts), clientKey, checkedAt)
      ensures sessions == if r.Ok? then Inserted(old(sessions), token, now) else old(sessions)
      ensures r.Ok? ==> r.value == token
    {
      var limited := throttle.CheckLocked(clientKey, checkedAt);
      if limited {
        return Err(RateLimited);
      }
      match credentials {
        case Unavailable => return Err(DatabaseError);
        case Wrong =>
          throttle.RecordFailure(clientKey, recordedAt);
          return Err(InvalidCredentials);
        case Right =>
          throttle.RecordSuccess(clientKey);
          if !inserted {
            return Err(DatabaseError);
          }
          sessions := sessions[token := Session(now, now, now + SESSION_TTL, None, None)];
          return Ok(token);
      }
    }

    method Logout(token: Token, now: int)
      modifies this
      ensures sessions == Revoked(old(sessions), token, now)
    {
      if token in sessions && sessions[token].revokedAt.None? {
        sessions := sessions[token := sessions[token].(revokedAt := Some(now))];
      }
    }

    method RevokeSession(token: Token, now: int) returns (r: Result<(), AuthError>)
      modifies this
      ensures sessions == Revoked(old(sessions), token, now)
      ensures r.Ok? <==> sessions != old(sessions)
    {
      var rowsAffected := 0;
      if token in sessions && sessions[token].revokedAt.None? {
        sessions := sessions[token := sessions[token].(revokedAt := Some(now))];
        assert sessions[token] != old(sessions)[token];
        rowsAffected := 1;
      }
      if rowsAffected == 0 {
        return Err(NotFound);
      }
      return Ok(());
    }

    method ValidateSession(token: Token, now: int, io: Io) returns (r: Result<View, AuthError>)
      modifies this
      ensures sessions == Validated(old(sessions), token, now, io == Works)
      ensures io == LookupFails ==> r == Err(DatabaseError)
      ensures io != LookupFails ==>
                match ValidateOutcome(old(sessions), token, now)
                case None => r == Err(InvalidCredentials)
                case Some(view) => r == if io == Works then Ok(view) else Err(DatabaseError)
    {
      if io == LookupFails {
        return Err(DatabaseError);
      }
      if token !in sessions || sessions[token].expires <= now || sessions[token].revokedAt.Some? {
        return Err(InvalidCredentials);
      }
      var s := sessions[token];
      if now - s.created > SESSION_ABSOLUTE_CEILING {
        if io == Works {
          sessions := sessions[token := s.(revokedAt := Some(now))];
        }
        return Err(InvalidCredentials);
      }
      var newExpiry := now + SESSION_TTL;
      if io == WriteFails {
        return Err(DatabaseError);
      }
      sessions := sessions[token := s.(lastSeen := now, expires := newExpiry)];
      return Ok(View(newExpiry, s.elevatedUntil));
    }

    method StepUp(token: Token, right: bool, now: int, io: Io) returns (r: Result<int, AuthError>)
      modifies this
      ensures sessions == SteppedUp(old(sessions), token, now, right && io == Works)
      ensures r == if io == LookupFails then Err(DatabaseError)
                   else if !StepUpAllowed(old(sessions), token, now, right) then Err(InvalidCredentials)
                   else if io == WriteFails then Err(DatabaseError)
                   else Ok(now + STEP_UP_TTL)
    {
      if io == LookupFails {
        return Err(DatabaseError);
      }
      if token !in sessions || sessions[token].expires <= now || !right {
        return Err(InvalidCredentials);
      }
      var elevatedUntil := now + STEP_UP_TTL;
      if io == WriteFails {
        return Err(DatabaseError);
      }
      sessions := sessions[token := sessions[token].(elevatedUntil := Some(elevatedUntil))];
      return Ok(elevatedUntil);
    }

    method SweepSessionLogs(now: int)
      modifies this
      ensures sessions == Swept(old(sessions), now)
    {
      var cutoff := now - SESSION_LOG_RETENTION;
      sessions := map tok | tok in sessions
        && !((sessions[tok].revokedAt.Some? || sessions[tok].expires < now) && sessions[tok].created < cutoff)
        :: sessions[tok];
    }
  }

  // ---------- runs ----------

  /** `saved`: the write went through. `right`: the password was right and the write went through. */
  datatype Event =
    | Login(tok: Token, at: int)
    | Validate(tok: Token, at: int, saved: bool)
    | StepUp(tok: Token, at: int, right: bool)
    | Logout(tok: Token, at: int)
    | Revoke(tok: Token, at: int)
    | Sweep(at: int)

  function Step(t: Table, e: Event): Table {
    match e
    case Login(tok, at) => Inserted(t, tok, at)
    case Validate(tok, at, saved) => Validated(t, tok, at, saved)
    case StepUp(tok, at, right) => SteppedUp(t, tok, at, right)
    case Logout(tok, at) => Revoked(t, tok, at)
    case Revoke(tok, at) => Revoked(t, tok, at)
    case Sweep(at) => Swept(t, at)
  }

  function Run(es: seq<Event>): Table {
    if es == [] then map[] else Step(Run(es[..|es| - 1]), es[|es| - 1])
  }

  /** The clock never runs backwards and every login draws a token never issued before. */
  predicate Plausible(es: seq<Event>) {
    es == [] ||
    (var init, e := es[..|es| - 1], es[|es| - 1];
     Plausible(init) && NotBefore(init, e.at) && (e.Login? ==> LoginTime(init, e.tok).None?))
  }

  predicate NotBefore(es: seq<Event>, now: int) {
    es == [] || es[|es| - 1].at <= now
  }

  // ---------- what the history alone says; no table and no sweep in sight ----------

  /** When `tok` was issued. */
  function LoginTime(es: seq<Event>, tok: Token): Option<int> {
    if es == [] then None
    else
      var e := es[|es| - 1];
      if e.Login? && e.tok == tok then Some(e.at) else LoginTime(es[..|es| - 1], tok)
  }

  /** `tok` was logged out or revoked after it was issued. */
  predicate Ended(es: seq<Event>, tok: Token) {
    es != [] &&
    (var init, e := es[..|es| - 1], es[|es| - 1];
     Ended(init, tok) || ((e.Logout? || e.Revoke?) && e.tok == tok && LoginTime(init, tok).Some?))
  }

  /** The last login or accepted use of `tok`. */
  function LastUse(es: seq<Event>, tok: Token): int
    decreases |es|, 0
  {
    if es == [] then 0
    else
      var init, e := es[..|es| - 1], es[|es| - 1];
      if e.Login? && e.tok == tok then e.at
      else if e.Validate? && e.tok == tok && e.saved && Accepted(init, tok, e.at) then e.at
      else LastUse(init, tok)
  }

  /** A request bearing `tok` is good at `now`: issued, not ended, used within 30 days, issued within 90. */
  predicate Accepted(es: seq<Event>, tok: Token, now: int)
    decreases |es|, 1
  {
    && LoginTime(es, tok).Some?
    && !Ended(es, tok)
    && now < LastUse(es, tok) + SESSION_TTL
    && now <= LoginTime(es, tok).value + SESSION_ABSOLUTE_CEILING
  }

  /** Until when the last right password given while `tok` was unexpired elevates it. */
  function Elevation(es: seq<Event>, tok: Token): Option<int> {
    if es == [] then None
    else
      var init, e := es[..|es| - 1], es[|es| - 1];
      if e.Login? && e.tok == tok then None
      else if e.StepUp? && e.tok == tok && e.right && e.at < LastUse(init, tok) + SESSION_TTL
      then Some(e.at + STEP_UP_TTL)
      else Elevation(init, tok)
  }

  // ---------- the table refines the history ----------

  /** A row holds what the history says of its token; a token issued but without a row is past its ceiling. */
  predicate RowAgrees(t: Table, es: seq<Event>, tok: Token, now: int) {
    && (tok in t ==>
          && LoginTime(es, tok) == Some(t[tok].created)
          && t[tok].lastSeen == LastUse(es, tok)
          && t[tok].expires == LastUse(es, tok) + SESSION_TTL
          && (Ended(es, tok) ==> t[tok].revokedAt.Some?)
          && (t[tok].revokedAt.Some? ==> Ended(es, tok) || now > t[tok].created + SESSION_ABSOLUTE_CEILING))
    && (LoginTime(es, tok).None? ==> !Ended(es, tok))
    && (tok !in t && LoginTime(es, tok).Some? ==> now > LoginTime(es, tok).value + SESSION_ABSOLUTE_CEILING)
  }

  predicate ElevationAgrees(t: Table, es: seq<Event>, tok: Token) {
    tok in t ==> t[tok].elevatedUntil == Elevation(es, tok)
  }

  lemma {:induction false} RunAgrees(es: seq<Event>, tok: Token, now: int)
    requires Plausible(es) && NotBefore(es, now)
    ensures RowAgrees(Run(es), es, tok, now)
  {
    if es != [] {
      var init, e := es[..|es| - 1], es[|es| - 1];
      RunAgrees(init, tok, e.at);
    }
  }

  lemma {:induction false} RunElevationAgrees(es: seq<Event>, tok: Token)
    requires Plausible(es)
    ensures ElevationAgrees(Run(es), es, tok)
  {
    if es != [] {
      var init, e := es[..|es| - 1], es[|es| - 1];
      RunElevationAgrees(init, tok);
      RunAgrees(init, tok, e.at);
    }
  }

  /** Main result: on every run, with sweeps at any moments, a request is validated exactly when the history
      accepts it, and it sees the elevation the history gives. */
  lemma ValidateIff(es: seq<Event>, tok: Token, now: int)
    requires Plausible(es) && NotBefore(es, now)
    ensures ValidateOutcome(Run(es), tok, now)
         == if Accepted(es, tok, now) then Some(View(now + SESSION_TTL, Elevation(es, tok))) else None
  {
    RunAgrees(es, tok, now);
    RunElevationAgrees(es, tok);
  }

  // ---------- consequences ----------

  /** Event `i` is the login of `tok` or a request bearing it that was validated. */
  predicate IsUse(es: seq<Event>, i: int, tok: Token) {
    0 <= i < |es| &&
    match es[i]
    case Login(t, _) => t == tok
    case Validate(t, at, saved) => t == tok && saved && ValidateOutcome(Run(es[..i]), tok, at).Some?
    case _ => false
  }

  lemma IsUseExtends(es: seq<Event>, i: int, tok: Token)
    requires |es| > 0 && IsUse(es[..|es| - 1], i, tok)
    ensures IsUse(es, i, tok)
  {
    assert es[..|es| - 1][..i] == es[..i];
  }

  lemma {:induction false} LastUseHappened(es: seq<Event>, tok: Token) returns (i: nat)
    requires Plausible(es) && LoginTime(es, tok).Some?
    ensures IsUse(es, i, tok) && es[i].at == LastUse(es, tok)
  {
    var init, e := es[..|es| - 1], es[|es| - 1];
    ValidateIff(init, tok, e.at);
    hide ValidateOutcome, Step, Elevation;
    if IsUse(es, |es| - 1, tok) {
      i := |es| - 1;
    } else {
      i := LastUseHappened(init, tok);
      IsUseExtends(es, i, tok);
    }
  }

  /** A validated request comes at most 90 days after the login and less than 30 days after some earlier
      login or validated request with the same token. */
  lemma ValidatedBounds(es: seq<Event>, tok: Token, now: int)
    requires Plausible(es) && NotBefore(es, now) && ValidateOutcome(Run(es), tok, now).Some?
    ensures LoginTime(es, tok).Some? && now <= LoginTime(es, tok).value + 90 * 86_400_000_000
    ensures exists i :: IsUse(es, i, tok) && now < es[i].at + 30 * 86_400_000_000
  {
    ValidateIff(es, tok, now);
    var i := LastUseHappened(es, tok);
  }

  /** Once a token is refused, whether ended, idle too long or past its ceiling, it is refused for ever. */
  lemma {:induction false} RefusedForEver(es: seq<Event>, more: seq<Event>, tok: Token, now: int, later: int)
    requires Plausible(es + more) && NotBefore(es + more, later)
    requires LoginTime(es, tok).Some? && !Accepted(es, tok, now)
    requires now <= later && forall e | e in more :: now <= e.at
    ensures LoginTime(es + more, tok) == LoginTime(es, tok) && !Accepted(es + more, tok, later)
    ensures Ended(es, tok) ==> Ended(es + more, tok)
    ensures ValidateOutcome(Run(es + more), tok, later).None?
  {
    if more == [] {
      assert es + more == es;
    } else {
      var init, e := more[..|more| - 1], more[|more| - 1];
      assert (es + more)[..|es + more| - 1] == es + init;
      RefusedForEver(es, init, tok, now, e.at);
    }
    ValidateIff(es + more, tok, later);
  }

  /** A revoked or logged-out session never validates again, on any continuation. */
  lemma RevokedNeverValidates(es: seq<Event>, e: Event, more: seq<Event>, tok: Token, later: int)
    requires Plausible(es + [e] + more) && NotBefore(es + [e] + more, later)
    requires LoginTime(es, tok).Some? && e in {Logout(tok, e.at), Revoke(tok, e.at)}
    requires e.at <= later && forall f | f in more :: e.at <= f.at
    ensures ValidateOutcome(Run(es + [e] + more), tok, later).None?
  {
    assert (es + [e])[..|es|] == es;
    RefusedForEver(es + [e], more, tok, e.at, later);
    ValidateIff(es + [e] + more, tok, later);
  }

  lemma {:induction false} ElevationHappened(es: seq<Event>, tok: Token) returns (i: nat)
    requires Elevation(es, tok).Some?
    ensures i < |es| && es[i].StepUp? && es[i].tok == tok && es[i].right
    ensures Elevation(es, tok) == Some(es[i].at + STEP_UP_TTL)
    ensures LoginTime(es[..i], tok) == LoginTime(es, tok)
  {
    var init, e := es[..|es| - 1], es[|es| - 1];
    if e.StepUp? && e.tok == tok && e.right && e.at < LastUse(init, tok) + SESSION_TTL {
      i := |es| - 1;
    } else {
      i := ElevationHappened(init, tok);
      assert init[..i] == es[..i];
    }
  }

  /** A request that counts as elevated follows, by less than five minutes, a step-up of that same session
      with the right password. */
  lemma ElevatedRecently(es: seq<Event>, tok: Token, now: int, used: int)
    requires Plausible(es) && NotBefore(es, now) && ValidateOutcome(Run(es), tok, now).Some?
    requires ValidateOutcome(Run(es), tok, now).value.Elevated(used)
    ensures exists i :: 0 <= i < |es| && es[i].StepUp? && es[i].tok == tok && es[i].right
                     && used < es[i].at + 300_000_000 && LoginTime(es[..i], tok) == LoginTime(es, tok)
  {
    ValidateIff(es, tok, now);
    var i := ElevationHappened(es, tok);
  }

  /** A step-up with the right password on an unexpired session, which lasts. */
  predicate Elevates(es: seq<Event>, i: int, tok: Token) {
    && 0 <= i < |es| && es[i].StepUp? && es[i].tok == tok && es[i].right
    && LoginTime(es[..i], tok).Some? && es[i].at < LastUse(es[..i], tok) + SESSION_TTL
  }

  lemma ElevatesInit(es: seq<Event>, i: int, tok: Token)
    requires es != [] && i < |es| - 1
    ensures Elevates(es, i, tok) <==> Elevates(es[..|es| - 1], i, tok)
  {
    if 0 <= i { assert es[..|es| - 1][..i] == es[..i]; }
  }

  lemma {:induction false} TimesRise(es: seq<Event>, i: int)
    requires Plausible(es) && 0 <= i < |es|
    ensures es[i].at <= es[|es| - 1].at
  {
    var init := es[..|es| - 1];
    if i < |init| { TimesRise(init, i); }
  }

  lemma {:induction false} NoneBeforeLogin(es: seq<Event>, tok: Token, i: nat)
    requires LoginTime(es, tok).None? && i <= |es|
    ensures LoginTime(es[..i], tok).None?
  {
    if i < |es| {
      assert es[..|es| - 1][..i] == es[..i];
      NoneBeforeLogin(es[..|es| - 1], tok, i);
    } else {
      assert es[..i] == es;
    }
  }

  lemma {:induction false} ElevationIff(es: seq<Event>, tok: Token, used: int)
    requires Plausible(es) && LoginTime(es, tok).Some?
    ensures (Elevation(es, tok).Some? && used < Elevation(es, tok).value)
       <==> exists i :: Elevates(es, i, tok) && used < es[i].at + STEP_UP_TTL
  {
    var n := |es| - 1;
    var init, e := es[..n], es[n];
    forall i | 0 <= i < n ensures Elevates(es, i, tok) <==> Elevates(init, i, tok) { ElevatesInit(es, i, tok); }
    forall i | 0 <= i < |es| ensures es[i].at <= e.at { TimesRise(es, i); }
    if e.Login? && e.tok == tok {
      forall i | 0 <= i < n ensures !Elevates(es, i, tok) {
        NoneBeforeLogin(init, tok, i);
        assert init[..i] == es[..i];
      }
    } else {
      ElevationIff(init, tok, used);
      assert Elevates(es, n, tok) <==> e.StepUp? && e.tok == tok && e.right && e.at < LastUse(init, tok) + SESSION_TTL;
      hide Elevates, LastUse, Plausible;
    }
  }

  /** Main result: a validated request counts as elevated at `used` if and only if less than five minutes before
      that the same session, unexpired then, was stepped up with the right password. */
  lemma ElevatedIff(es: seq<Event>, tok: Token, now: int, used: int)
    requires Plausible(es) && NotBefore(es, now) && ValidateOutcome(Run(es), tok, now).Some?
    ensures ValidateOutcome(Run(es), tok, now).value.Elevated(used)
       <==> exists i :: Elevates(es, i, tok) && used < es[i].at + 300_000_000
  {
    ValidateIff(es, tok, now);
    hide ValidateOutcome, Elevates, Elevation;
    ElevationIff(es, tok, used);
  }

  // ---------- sweeps ----------

  function WithoutSweeps(es: seq<Event>): seq<Event> {
    if es == [] then []
    else WithoutSweeps(es[..|es| - 1]) + if es[|es| - 1].Sweep? then [] else [es[|es| - 1]]
  }

  predicate SameHistory(es: seq<Event>, fs: seq<Event>, tok: Token) {
    && LoginTime(es, tok) == LoginTime(fs, tok) && Ended(es, tok) == Ended(fs, tok)
    && LastUse(es, tok) == LastUse(fs, tok) && Elevation(es, tok) == Elevation(fs, tok)
  }

  lemma SameHistoryStep(es: seq<Event>, fs: seq<Event>, e: Event, tok: Token)
    requires SameHistory(es, fs, tok)
    ensures SameHistory(es + [e], fs + [e], tok)
  {
    assert (es + [e])[..|es|] == es;
    assert (fs + [e])[..|fs|] == fs;
    assert LastUse(es + [e], tok) == LastUse(fs + [e], tok) by {
      hide Elevation;
    }
    assert Elevation(es + [e], tok) == Elevation(fs + [e], tok) by {
      hide Accepted;
    }
    hide LastUse, Elevation, Accepted;
  }

  lemma {:induction false} SweepsLeaveHistory(es: seq<Event>, tok: Token)
    ensures SameHistory(WithoutSweeps(es), es, tok)
  {
    if es != [] {
      var init, e := es[..|es| - 1], es[|es| - 1];
      SweepsLeaveHistory(init, tok);
      assert es == init + [e];
      if e.Sweep? {
        assert WithoutSweeps(init) + [] == WithoutSweeps(init);
      } else {
        hide SameHistory;
        SameHistoryStep(WithoutSweeps(init), init, e, tok);
      }
    }
  }

  /** Main result: two runs that differ only in their sweeps, wherever those were inserted or removed,
      validate the same requests with the same view. */
  lemma SweepsInvisible(es: seq<Event>, fs: seq<Event>, tok: Token, now: int)
    requires Plausible(es) && NotBefore(es, now) && Plausible(fs) && NotBefore(fs, now)
    requires WithoutSweeps(es) == WithoutSweeps(fs)
    ensures ValidateOutcome(Run(es), tok, now) == ValidateOutcome(Run(fs), tok, now)
  {
    ValidateIff(es, tok, now);
    ValidateIff(fs, tok, now);
    SweepsLeaveHistory(es, tok);
    SweepsLeaveHistory(fs, tok);
  }

  // ---------- step-up does see sweeps ----------

  /** A validation found `tok` past its ceiling and revoked it. */
  predicate Capped(es: seq<Event>, tok: Token) {
    es != [] &&
    (var init, e := es[..|es| - 1], es[|es| - 1];
     || Capped(init, tok)
     || (&& e.Validate? && e.tok == tok && e.saved
         && LoginTime(init, tok).Some? && !Ended(init, tok)
         && e.at < LastUse(init, tok) + SESSION_TTL
         && e.at > LoginTime(init, tok).value + SESSION_ABSOLUTE_CEILING))
  }

  /** A sweep came more than 90 days after the login, when `tok` was ended, revoked at its ceiling, or past
      its expiry. */
  predicate Gone(es: seq<Event>, tok: Token) {
    es != [] &&
    (var init, e := es[..|es| - 1], es[|es| - 1];
     || Gone(init, tok)
     || (&& e.Sweep? && LoginTime(init, tok).Some?
         && LoginTime(init, tok).value < e.at - SESSION_LOG_RETENTION
         && (Ended(init, tok) || Capped(init, tok) || LastUse(init, tok) + SESSION_TTL < e.at)))
  }

  predicate PresenceAgrees(t: Table, es: seq<Event>, tok: Token) {
    && (tok in t <==> LoginTime(es, tok).Some? && !Gone(es, tok))
    && (tok in t ==> (t[tok].revokedAt.Some? <==> Ended(es, tok) || Capped(es, tok)))
    && (LoginTime(es, tok).None? ==> !Gone(es, tok) && !Capped(es, tok) && !Ended(es, tok))
  }

  /** Which tokens still have a row, and which rows are revoked, is read off the history. */
  lemma {:induction false} RunPresence(es: seq<Event>, tok: Token)
    requires Plausible(es)
    ensures PresenceAgrees(Run(es), es, tok)
  {
    if es != [] {
      var init, e := es[..|es| - 1], es[|es| - 1];
      RunPresence(init, tok);
      RunAgrees(init, tok, e.at);
    }
  }

  /** A step-up is allowed exactly if the password is right, the token unexpired and its row not swept;
      being revoked is no obstacle. */
  lemma StepUpIff(es: seq<Event>, tok: Token, now: int, right: bool)
    requires Plausible(es) && NotBefore(es, now)
    ensures StepUpAllowed(Run(es), tok, now, right)
       <==> right && LoginTime(es, tok).Some? && now < LastUse(es, tok) + SESSION_TTL && !Gone(es, tok)
    ensures Accepted(es, tok, now) ==> !Gone(es, tok)
  {
    RunAgrees(es, tok, now);
    RunPresence(es, tok);
  }

  lemma {:induction false} NothingGone(es: seq<Event>, tok: Token)
    ensures !Gone(WithoutSweeps(es), tok)
  {
    if es != [] {
      var init, e := es[..|es| - 1], es[|es| - 1];
      NothingGone(init, tok);
      var w := WithoutSweeps(init);
      if e.Sweep? {
        assert w + [] == w;
      } else {
        assert (w + [e])[..|w|] == w;
      }
    }
  }

  lemma {:induction false} SweepsLeavePlausible(es: seq<Event>, now: int)
    requires Plausible(es) && NotBefore(es, now)
    ensures Plausible(WithoutSweeps(es)) && NotBefore(WithoutSweeps(es), now)
  {
    if es != [] {
      var init, e := es[..|es| - 1], es[|es| - 1];
      SweepsLeavePlausible(init, e.at);
      var w := WithoutSweeps(init);
      if e.Sweep? {
        assert w + [] == w;
      } else {
        if e.Login? { SweepsLeaveHistory(init, e.tok); }
        assert (w + [e])[..|w|] == w;
      }
    }
  }

  /** The sweeps of a run change the answer to a step-up exactly if the password is right, the token
      unexpired and its row gone; never on a token that a request would be validated on. */
  lemma StepUpSeesSweeps(es: seq<Event>, tok: Token, now: int, right: bool)
    requires Plausible(es) && NotBefore(es, now)
    ensures StepUpAllowed(Run(es), tok, now, right) != StepUpAllowed(Run(WithoutSweeps(es)), tok, now, right)
       <==> right && LoginTime(es, tok).Some? && now < LastUse(es, tok) + SESSION_TTL && Gone(es, tok)
    ensures Accepted(es, tok, now) ==> !Gone(es, tok)
  {
    SweepsLeavePlausible(es, now);
    SweepsLeaveHistory(es, tok);
    NothingGone(es, tok);
    StepUpIff(es, tok, now, right);
    StepUpIff(WithoutSweeps(es), tok, now, right);
    hide Gone, StepUpAllowed, Accepted;
  }

  /** A session kept in use past day 87 and then revoked can still be stepped up on day 92, unless a sweep
      came first. */
  lemma StepUpAfterSweep()
    ensures var es := [Login(7, 0), Validate(7, 29 * DAY, true), Validate(7, 58 * DAY, true),
                       Validate(7, 87 * DAY, true), Revoke(7, 88 * DAY)];
            && Plausible(es) && Plausible(es + [Sweep(91 * DAY)])
            && WithoutSweeps(es + [Sweep(91 * DAY)]) == WithoutSweeps(es)
            && StepUpAllowed(Run(es), 7, 92 * DAY, true)
            && !StepUpAllowed(Run(es + [Sweep(91 * DAY)]), 7, 92 * DAY, true)
  {
    var e1 := [Login(7, 0)];
    var e2 := e1 + [Validate(7, 29 * DAY, true)];
    var e3 := e2 + [Validate(7, 58 * DAY, true)];
    var e4 := e3 + [Validate(7, 87 * DAY, true)];
    var es := e4 + [Revoke(7, 88 * DAY)];
    RunAppend([], Login(7, 0));
    RunAppend(e1, Validate(7, 29 * DAY, true));
    RunAppend(e2, Validate(7, 58 * DAY, true));
    RunAppend(e3, Validate(7, 87 * DAY, true));
    RunAppend(e4, Revoke(7, 88 * DAY));
    RunAppend(es, Sweep(91 * DAY));
    assert Run(es)[7] == Session(0, 87 * DAY, 117 * DAY, None, Some(88 * DAY));
    assert WithoutSweeps(es) + [] == WithoutSweeps(es);
    assert es == [Login(7, 0), Validate(7, 29 * DAY, true), Validate(7, 58 * DAY, true),
                  Validate(7, 87 * DAY, true), Revoke(7, 88 * DAY)];
  }

  lemma RunAppend(es: seq<Event>, e: Event)
    ensures Run(es + [e]) == Step(Run(es), e)
    ensures Plausible(es + [e])
       <==> Plausible(es) && NotBefore(es, e.at) && (e.Login? ==> LoginTime(es, e.tok).None?)
    ensures WithoutSweeps(es + [e]) == WithoutSweeps(es) + if e.Sweep? then [] else [e]
  {
    assert (es + [e])[..|es|] == es;
  }

  /** The session screen lists every token a request would be validated on; what it lists beyond those is
      past its ceiling and refused on its next use. */
  lemma ListedIff(es: seq<Event>, tok: Token, now: int)
    requires Plausible(es) && NotBefore(es, now)
    ensures tok in ActiveSessions(Run(es), now) ==> LoginTime(es, tok).Some?
    ensures Accepted(es, tok, now)
       <==> tok in ActiveSessions(Run(es), now) && now <= LoginTime(es, tok).value + SESSION_ABSOLUTE_CEILING
  {
    RunAgrees(es, tok, now);
  }
}
