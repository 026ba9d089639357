/** The in-memory login throttle: exponential backoff per client key. */
module LoginThrottle {

  const SECOND := 1_000_000

  datatype AttemptState = AttemptState(failures: nat, lockedUntil: int)

  type Attempts = map<string, AttemptState>

  function Pow2(n: nat): nat {
    if n == 0 then 1 else 2 * Pow2(n - 1)
  }

  /** 2^failures seconds, capped at 2^7. */
  function Backoff(failures: nat): nat {
    Pow2(if failures < 7 then failures else 7) * SECOND
  }

  predicate Locked(a: Attempts, key: string, now: int) {
    key in a && now < a[key].lockedUntil
  }

  function Failed(a: Attempts, key: string, now: int): Attempts {
    var failures := (if key in a then a[key].failures else 0) + 1;
    a[key := AttemptState(failures, now + Backoff(failures))]
  }

  class Throttle {
    var attempts: Attempts

    constructor ()
      ensures attempts == map[]
    {
      attempts := map[];
    }

    method CheckLocked(key: string, now: int) returns (limited: bool)
      ensures limited == Locked(attempts, key, now)
    {
      limited := key in attempts && now < attempts[key].lockedUntil;
    }

    method RecordFailure(key: string, now: int)
      modifies this
      ensures attempts == Failed(old(attempts), key, now)
    {
      if key !in attempts {
        attempts := attempts[key := AttemptState(0, 0)];
      }
      var st := attempts[key];
      st := st.(failures := st.failures + 1);
      st := st.(lockedUntil := now + Backoff(st.failures));
      attempts := attempts[key := st];
    }

    method RecordSuccess(key: string)
      modifies this
      ensures attempts == old(attempts) - {key}
    {
      attempts := attempts - {key};
    }
  }

  // ---------- runs ----------

  /** Unavailable: the user lookup failed for a reason other than an unknown user. */
  datatype Credentials = Right | Wrong | Unavailable

  /** One login call: the throttle is checked at `checkedAt` and, if it admits the call, its result is
      recorded at `recordedAt`. */
  datatype Attempt = Attempt(key: string, checkedAt: int, recordedAt: int, credentials: Credentials)

  predicate Admitted(a: Attempts, e: Attempt) {
    !Locked(a, e.key, e.checkedAt)
  }

  function After(a: Attempts, e: Attempt): Attempts {
    if !Admitted(a, e) then a
    else match e.credentials
      case Wrong => Failed(a, e.key, e.recordedAt)
      case Right => a - {e.key}
      case Unavailable => a
  }

  function Run(es: seq<Attempt>): Attempts {
    if es == [] then map[] else After(Run(es[..|es| - 1]), es[|es| - 1])
  }

  /** Calls on one key do not overlap: each is recorded before the next one is checked. */
  predicate Serial(es: seq<Attempt>, key: string) {
    && (forall i | 0 <= i < |es| && es[i].key == key :: es[i].checkedAt <= es[i].recordedAt)
    && (forall i, j | 0 <= i < j < |es| && es[i].key == key && es[j].key == key :: es[i].recordedAt <= es[j].checkedAt)
  }

  /** When the admitted wrong attempts on `key` since its last success were recorded. */
  function FailureTimes(es: seq<Attempt>, key: string): seq<int> {
    if es == [] then []
    else
      var init, e := es[..|es| - 1], es[|es| - 1];
      if e.key != key || !Admitted(Run(init), e) || e.credentials == Unavailable then FailureTimes(init, key)
      else if e.credentials == Right then []
      else FailureTimes(init, key) + [e.recordedAt]
  }

  /** The least time, in seconds, that n admitted failures in a row can take. */
  function LeastSpan(n: nat): int {
    if n <= 8 then Pow2(n) - 2 else 254 + 128 * (n - 8)
  }

  /** The times of n failures in a row are spaced by the backoff. */
  predicate Spaced(f: seq<int>) {
    forall i | 0 < i < |f| :: f[i - 1] + Backoff(i) <= f[i]
  }

  /** What the entry of a key is after failures at the times `f`. */
  predicate EntryIs(a: Attempts, key: string, f: seq<int>) {
    && Spaced(f)
    && (key in a <==> f != [])
    && (f != [] ==> a[key] == AttemptState(|f|, f[|f| - 1] + Backoff(|f|)))
  }

  lemma FailureKeeps(a: Attempts, e: Attempt, f: seq<int>)
    requires EntryIs(a, e.key, f) && Admitted(a, e) && e.credentials == Wrong && e.checkedAt <= e.recordedAt
    ensures EntryIs(After(a, e), e.key, f + [e.recordedAt])
  {
    hide Backoff;
  }

  lemma OthersKeep(a: Attempts, e: Attempt, key: string)
    requires e.key != key || !Admitted(a, e) || e.credentials == Unavailable
    ensures key in After(a, e) <==> key in a
    ensures key in a ==> After(a, e)[key] == a[key]
  {
    hide Backoff;
  }

  /** Main invariant: a key's entry says exactly how many failures it has in a row, spaced by the backoffs, and
      when the last backoff ends; attempts on other keys play no part. */
  lemma {:induction false} EntryMeaning(es: seq<Attempt>, key: string)
    requires Serial(es, key)
    ensures EntryIs(Run(es), key, FailureTimes(es, key))
  {
    if es != [] {
      var init, e := es[..|es| - 1], es[|es| - 1];
      EntryMeaning(init, key);
      hide Backoff, Serial, Spaced, Admitted, After;
      if e.key != key || !Admitted(Run(init), e) || e.credentials == Unavailable {
        OthersKeep(Run(init), e, key);
      } else if e.credentials == Wrong {
        hide EntryIs;
        FailureKeeps(Run(init), e, FailureTimes(init, key));
      } else {
        SuccessForgets(Run(init), e);
      }
    }
  }

  lemma SuccessForgets(a: Attempts, e: Attempt)
    requires Admitted(a, e) && e.credentials == Right
    ensures EntryIs(After(a, e), e.key, [])
  {
  }

  /** An attempt is admitted exactly when the key's last backoff is over. */
  lemma AdmittedIff(es: seq<Attempt>, e: Attempt)
    requires Serial(es, e.key)
    ensures var f := FailureTimes(es, e.key);
            Admitted(Run(es), e) <==> f == [] || f[|f| - 1] + Backoff(|f|) <= e.checkedAt
  {
    EntryMeaning(es, e.key);
  }

  lemma Pow2Table()
    ensures Pow2(1) == 2 && Pow2(2) == 4 && Pow2(3) == 8 && Pow2(4) == 16
    ensures Pow2(5) == 32 && Pow2(6) == 64 && Pow2(7) == 128 && Pow2(8) == 256
  {
    assert Pow2(4) == 16;
  }

  lemma LeastSpanGrows(n: nat)
    requires 1 <= n
    ensures LeastSpan(n + 1) * SECOND == LeastSpan(n) * SECOND + Backoff(n)
  {
    Pow2Table();
    if n < 8 { assert Pow2(n + 1) == 2 * Pow2(n); }
  }

  lemma {:induction false} SpacedSpan(f: seq<int>)
    requires f != [] && Spaced(f)
    ensures LeastSpan(|f|) * SECOND <= f[|f| - 1] - f[0]
  {
    var n := |f| - 1;
    if n == 0 {
      Pow2Table();
    } else {
      SpacedSpan(f[..n]);
      LeastSpanGrows(n);
      hide LeastSpan, Backoff;
      assert f[n - 1] + Backoff(n) <= f[n];
    }
  }

  /** Main result: on every run, n admitted failures of one key with no success between them span at
      least 2^n - 2 seconds up to n = 8, and 254 + 128 (n - 8) seconds beyond. */
  lemma FailuresSpan(es: seq<Attempt>, key: string)
    requires Serial(es, key) && FailureTimes(es, key) != []
    ensures var f := FailureTimes(es, key);
            && (|f| <= 8 ==> (Pow2(|f|) - 2) * SECOND <= f[|f| - 1] - f[0])
            && (|f| >= 8 ==> (254 + 128 * (|f| - 8)) * SECOND <= f[|f| - 1] - f[0])
  {
    EntryMeaning(es, key);
    SpacedSpan(FailureTimes(es, key));
    Pow2Table();
  }

  /** The backoff doubles from two seconds up to 128 and stays there. */
  lemma BackoffSeconds(n: nat)
    requires n > 0
    ensures Backoff(1) == 2_000_000
    ensures n < 7 ==> Backoff(n + 1) == 2 * Backoff(n)
    ensures n >= 7 ==> Backoff(n) == 128_000_000
  {
    Pow2Table();
  }

  /** `n` failures in a row, each at the first moment it is admitted. */
  function Fastest(key: string, n: nat): seq<Attempt> {
    if n == 0 then []
    else Fastest(key, n - 1) + [Attempt(key, LeastSpan(n) * SECOND, LeastSpan(n) * SECOND, Wrong)]
  }

  lemma {:induction false} FastestAt(key: string, n: nat)
    ensures |Fastest(key, n)| == n
    ensures forall i | 0 <= i < n :: Fastest(key, n)[i] == Attempt(key, LeastSpan(i + 1) * SECOND, LeastSpan(i + 1) * SECOND, Wrong)
  {
    if n > 0 { FastestAt(key, n - 1); }
    hide LeastSpan;
  }

  lemma LeastSpanNext(n: nat)
    requires n > 0
    ensures LeastSpan(1) == 0 && LeastSpan(n + 1) * SECOND == LeastSpan(n) * SECOND + Backoff(n)
  {
    Pow2Table();
    if n < 8 { assert Pow2(n + 1) == 2 * Pow2(n); }
  }

  lemma {:induction false} SpansRise(i: nat, j: nat)
    requires 0 < i <= j
    ensures LeastSpan(i) <= LeastSpan(j)
    decreases j
  {
    if i < j {
      SpansRise(i, j - 1);
      LeastSpanNext(j - 1);
    }
  }

  lemma FastestSerial(key: string, n: nat)
    ensures Serial(Fastest(key, n), key)
  {
    hide LeastSpan, Fastest;
    FastestAt(key, n);
    var es := Fastest(key, n);
    forall i, j | 0 <= i < j < n ensures es[i].recordedAt <= es[j].checkedAt { SpansRise(i + 1, j + 1); }
  }

  lemma FailureAppends(es: seq<Attempt>, e: Attempt)
    requires Admitted(Run(es), e) && e.credentials == Wrong
    ensures FailureTimes(es + [e], e.key) == FailureTimes(es, e.key) + [e.recordedAt]
  {
    hide Admitted, After;
    assert (es + [e])[..|es|] == es;
  }

  lemma FastestNext(key: string, n: nat)
    requires n > 0
    ensures Fastest(key, n) == Fastest(key, n - 1) + [Attempt(key, LeastSpan(n) * SECOND, LeastSpan(n) * SECOND, Wrong)]
    ensures n == 1 ==> FailureTimes(Fastest(key, n - 1), key) == []
  {
    hide LeastSpan;
  }

  lemma {:induction false} FastestFailures(key: string, n: nat)
    requires n > 0
    ensures var f := FailureTimes(Fastest(key, n), key);
            |f| == n && f[0] == 0 && f[n - 1] == LeastSpan(n) * SECOND
  {
    hide LeastSpan, Backoff, Serial, Admitted, Run, Fastest, FailureTimes, After;
    var init, e := Fastest(key, n - 1), Attempt(key, LeastSpan(n) * SECOND, LeastSpan(n) * SECOND, Wrong);
    FastestNext(key, n);
    LeastSpanNext(n);
    FastestSerial(key, n - 1);
    if n > 1 {
      FastestFailures(key, n - 1);
      LeastSpanNext(n - 1);
    }
    AdmittedIff(init, e);
    FailureAppends(init, e);
  }

  /** The least span is attained: failures that come as soon as they are admitted take no longer. */
  lemma LeastSpanAttained(key: string, n: nat)
    requires n > 0
    ensures exists es :: Serial(es, key) && TakesJust(FailureTimes(es, key), n, if n <= 8 then Pow2(n) - 2 else 254 + 128 * (n - 8))
  {
    FastestSerial(key, n);
    FastestFailures(key, n);
    assert LeastSpan(n) == if n <= 8 then Pow2(n) - 2 else 254 + 128 * (n - 8);
    hide LeastSpan, Pow2, FailureTimes, Serial, Fastest;
    assert TakesJust(FailureTimes(Fastest(key, n), key), n, LeastSpan(n));
  }

  /** `n` failures within that many seconds. */
  predicate TakesJust(f: seq<int>, n: nat, seconds: int) {
    |f| == n > 0 && f[n - 1] - f[0] == seconds * SECOND
  }

  /** What happens on other keys never changes a key's entry or its admissions. */
  function OnKey(es: seq<Attempt>, key: string): seq<Attempt> {
    if es == [] then []
    else OnKey(es[..|es| - 1], key) + if es[|es| - 1].key == key then [es[|es| - 1]] else []
  }

  lemma {:induction false} OtherKeysIrrelevant(es: seq<Attempt>, key: string)
    ensures SameEntry(Run(es), Run(OnKey(es, key)), key)
    ensures FailureTimes(es, key) == FailureTimes(OnKey(es, key), key)
  {
    if es != [] {
      var init, e := es[..|es| - 1], es[|es| - 1];
      OtherKeysIrrelevant(init, key);
      var on := OnKey(init, key);
      if e.key == key {
        assert (on + [e])[..|on|] == on;
        hide SameEntry, After, OnKey;
        SameStep(Run(init), Run(on), e);
      } else {
        assert on + [] == on;
        hide SameEntry, After;
        OtherStep(Run(init), e, key);
        assert OnKey(es, key) == on;
        SameTrans(Run(es), Run(init), Run(on), key);
      }
    }
  }

  /** Two throttles hold the same of a key. */
  predicate SameEntry(a: Attempts, b: Attempts, key: string) {
    (key in a <==> key in b) && (key in a ==> a[key] == b[key])
  }

  lemma SameTrans(a: Attempts, b: Attempts, c: Attempts, key: string)
    requires SameEntry(a, b, key) && SameEntry(b, c, key)
    ensures SameEntry(a, c, key)
  {
  }

  lemma SameStep(a: Attempts, b: Attempts, e: Attempt)
    requires SameEntry(a, b, e.key)
    ensures Admitted(a, e) <==> Admitted(b, e)
    ensures SameEntry(After(a, e), After(b, e), e.key)
  {
    hide Backoff;
  }

  lemma OtherStep(a: Attempts, e: Attempt, key: string)
    requires e.key != key
    ensures SameEntry(After(a, e), a, key)
  {
    hide Backoff;
  }
}
