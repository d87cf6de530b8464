/**
  The login limiter: a sliding window of admitted attempts, pruned in place, and a back-off
  that grows with consecutive failures. Times are nanoseconds since the zero time.
 */
module Logins {
  import opened Options

  const SECOND := 1_000_000_000
  const MINUTE := 60 * SECOND
  const ATTEMPTS_PER_MINUTE := 5
  const BACKOFF_CAP := 15 * MINUTE
  const FAILURES_BEFORE_ALERT := 10

  datatype Limiter = Limiter(attempts: seq<int>, failures: nat, lockedUntil: int, alertedAtRun: nat)

  const NEW_LIMITER := Limiter([], 0, 0, 0)

  /** The attempts after the cutoff. */
  function Recent(attempts: seq<int>, cutoff: int): seq<int>
    decreases |attempts|
  {
    if attempts == [] then []
    else
      var n := |attempts| - 1;
      Recent(attempts[..n], cutoff) + if attempts[n] > cutoff then [attempts[n]] else []
  }

  /** The second part is how long to wait; none when the attempt is admitted. */
  function Attempt(l: Limiter, now: int): (Limiter, Option<int>) {
    if now < l.lockedUntil then (l, Some(l.lockedUntil - now))
    else
      var kept := Recent(l.attempts, now - MINUTE);
      if |kept| >= ATTEMPTS_PER_MINUTE then (l.(attempts := kept), Some(MINUTE))
      else (l.(attempts := kept + [now]), None)
  }

  function Pow2(n: nat): nat {
    if n == 0 then 1 else 2 * Pow2(n - 1)
  }

  function Min(a: int, b: int): int {
    if a < b then a else b
  }

  function Backoff(failures: nat): int
    requires failures > ATTEMPTS_PER_MINUTE
  {
    Min(Pow2(Min(failures - ATTEMPTS_PER_MINUTE, 10)) * SECOND, BACKOFF_CAP)
  }

  /** The second part is whether the user is told. */
  function Failure(l: Limiter, now: int): (Limiter, bool) {
    var failures := l.failures + 1;
    var lockedUntil := if failures > ATTEMPTS_PER_MINUTE then now + Backoff(failures) else l.lockedUntil;
    var alert := failures >= FAILURES_BEFORE_ALERT && failures != l.alertedAtRun;
    (Limiter(l.attempts, failures, lockedUntil, if alert then failures else l.alertedAtRun), alert)
  }

  function SignIn(l: Limiter): Limiter {
    l.(failures := 0)
  }

  // ---- in place

  class Authenticator {
    const attempts: array<int>
    var count: nat
    var failures: nat
    var lockedUntil: int
    var alertedAtRun: nat

    ghost predicate Valid()
      reads this
    {
      attempts.Length == ATTEMPTS_PER_MINUTE && count <= attempts.Length
    }

    ghost function Value(): Limiter
      requires Valid()
      reads this, attempts
    {
      Limiter(attempts[..count], failures, lockedUntil, alertedAtRun)
    }

    constructor ()
      ensures Valid() && Value() == NEW_LIMITER && fresh(attempts)
    {
      attempts := new int[ATTEMPTS_PER_MINUTE];
      count, failures, lockedUntil, alertedAtRun := 0, 0, 0, 0;
    }

    /** Keeps what is recent at the front of the same array: never writes past what it has read. */
    method Prune(cutoff: int)
      requires Valid()
      modifies this`count, attempts
      ensures Valid() && attempts[..count] == Recent(old(attempts[..count]), cutoff)
    {
      var kept, i := 0, 0;
      ghost var was := attempts[..count];
      while i < count
        invariant 0 <= kept <= i <= count == old(count)
        invariant attempts[..kept] == Recent(was[..i], cutoff)
        invariant forall j :: i <= j < count ==> attempts[j] == was[j]
      {
        assert was[..i + 1][..i] == was[..i];
        var at := attempts[i];
        if at > cutoff {
          attempts[kept] := at;
          kept := kept + 1;
        }
        i := i + 1;
      }
      assert was[..i] == was;
      count := kept;
    }

    method RateLimited(now: int) returns (wait: Option<int>)
      requires Valid()
      modifies this, attempts
      ensures Valid() && Value() == Attempt(old(Value()), now).0 && wait == Attempt(old(Value()), now).1
    {
      if now < lockedUntil {
        return Some(lockedUntil - now);
      }
      Prune(now - MINUTE);
      if count >= ATTEMPTS_PER_MINUTE {
        return Some(MINUTE);
      }
      attempts[count] := now;
      count := count + 1;
      return None;
    }

    method RecordFailure(now: int) returns (alert: bool)
      requires Valid()
      modifies this
      ensures Valid() && Value() == Failure(old(Value()), now).0 && alert == Failure(old(Value()), now).1
    {
      failures := failures + 1;
      if failures > ATTEMPTS_PER_MINUTE {
        var backoff := Pow2(Min(failures - ATTEMPTS_PER_MINUTE, 10)) * SECOND;
        lockedUntil := now + Min(backoff, BACKOFF_CAP);
      }
      alert := failures >= FAILURES_BEFORE_ALERT && failures != alertedAtRun;
      if alert {
        alertedAtRun := failures;
      }
    }

    /** A right password forgets the failures; it does not lift a lock. */
    method NewSession()
      requires Valid()
      modifies this`failures
      ensures Valid() && Value() == SignIn(old(Value()))
    {
      failures := 0;
    }
  }

  // ---- any run

  datatype Event = Attempted(at: int) | Failed(at: int) | SignedIn(at: int)

  function Next(l: Limiter, ev: Event): Limiter {
    match ev
    case Attempted(at) => Attempt(l, at).0
    case Failed(at) => Failure(l, at).0
    case SignedIn(_) => SignIn(l)
  }

  function Run(l: Limiter, evs: seq<Event>): Limiter
    decreases |evs|
  {
    if evs == [] then l else Next(Run(l, evs[..|evs| - 1]), evs[|evs| - 1])
  }

  function AdmittedBy(l: Limiter, ev: Event): seq<int> {
    if ev.Attempted? && Attempt(l, ev.at).1.None? then [ev.at] else []
  }

  /** When attempts were let through, in order. */
  function Admitted(evs: seq<Event>): seq<int>
    decreases |evs|
  {
    if evs == [] then []
    else
      var n := |evs| - 1;
      Admitted(evs[..n]) + AdmittedBy(Run(NEW_LIMITER, evs[..n]), evs[n])
  }

  predicate InOrder(evs: seq<Event>) {
    forall i, j :: 0 <= i < j < |evs| ==> evs[i].at <= evs[j].at
  }

  predicate Sorted(s: seq<int>) {
    forall i, j :: 0 <= i < j < |s| ==> s[i] <= s[j]
  }

  /** Of any six in a row the last comes at least a minute after the first. */
  predicate Spaced(s: seq<int>) {
    forall j :: ATTEMPTS_PER_MINUTE <= j < |s| ==> s[j - ATTEMPTS_PER_MINUTE] <= s[j] - MINUTE
  }

  // ---- the window

  lemma TailWithLast(s: seq<int>, k: nat)
    requires k < |s|
    ensures s[k..] == s[..|s| - 1][k..] + [s[|s| - 1]]
  {}

  lemma OneMoreRecent(s: seq<int>, cutoff: int)
    requires s != [] && s[|s| - 1] > cutoff
    requires var before, r := s[..|s| - 1], Recent(s[..|s| - 1], cutoff);
             |r| <= |before| && r == before[|before| - |r|..] && forall i :: 0 <= i < |before| - |r| ==> before[i] <= cutoff
    ensures var r := Recent(s, cutoff);
            |r| <= |s| && r == s[|s| - |r|..] && forall i :: 0 <= i < |s| - |r| ==> s[i] <= cutoff
  {
    var n := |s| - 1;
    TailWithLast(s, n - |Recent(s[..n], cutoff)|);
    assert forall i :: 0 <= i < n ==> s[i] == s[..n][i];
  }

  lemma {:induction false} RecentIsTail(s: seq<int>, cutoff: int)
    requires Sorted(s)
    ensures var r := Recent(s, cutoff);
            && |r| <= |s| && r == s[|s| - |r|..]
            && forall i :: 0 <= i < |s| - |r| ==> s[i] <= cutoff
    decreases |s|
  {
    if s != [] {
      var n := |s| - 1;
      if s[n] <= cutoff {
        AllOld(s, cutoff);
      } else {
        RecentIsTail(s[..n], cutoff);
        OneMoreRecent(s, cutoff);
      }
    }
  }

  lemma {:induction false} AllOld(s: seq<int>, cutoff: int)
    requires forall i :: 0 <= i < |s| ==> s[i] <= cutoff
    ensures Recent(s, cutoff) == []
    decreases |s|
  {
    if s != [] {
      AllOld(s[..|s| - 1], cutoff);
    }
  }

  /** The attempts remembered are the latest of those admitted, and the others are over a minute old. */
  predicate Remembers(attempts: seq<int>, admitted: seq<int>, now: int) {
    && |attempts| <= |admitted|
    && attempts == admitted[|admitted| - |attempts|..]
    && (forall i :: 0 <= i < |admitted| - |attempts| ==> admitted[i] <= now - MINUTE)
  }

  /** What has been admitted so far by this clock. */
  predicate Lawful(admitted: seq<int>, now: int) {
    && Sorted(admitted)
    && (forall i :: 0 <= i < |admitted| ==> admitted[i] <= now)
    && Spaced(admitted)
  }

  lemma PruningRemembers(attempts: seq<int>, admitted: seq<int>, before: int, now: int)
    requires Remembers(attempts, admitted, before) && before <= now && Sorted(attempts)
    ensures Remembers(Recent(attempts, now - MINUTE), admitted, now)
  {
    var kept := Recent(attempts, now - MINUTE);
    RecentIsTail(attempts, now - MINUTE);
    var start, gone := |admitted| - |attempts|, |admitted| - |kept|;
    assert kept == admitted[gone..];
    forall i | 0 <= i < gone ensures admitted[i] <= now - MINUTE {
      if i >= start {
        assert admitted[i] == attempts[i - start];
      }
    }
  }

  lemma AdmittingRemembers(kept: seq<int>, admitted: seq<int>, now: int)
    requires Remembers(kept, admitted, now) && Lawful(admitted, now)
    ensures Remembers(kept + [now], admitted + [now], now)
    ensures |kept| < ATTEMPTS_PER_MINUTE ==> Lawful(admitted + [now], now)
  {
    var gone := |admitted| - |kept|;
    assert (admitted + [now])[gone..] == kept + [now];
    if |kept| < ATTEMPTS_PER_MINUTE <= |admitted| {
      assert admitted[|admitted| - ATTEMPTS_PER_MINUTE] <= now - MINUTE;
    }
  }

  lemma TailIsSorted(admitted: seq<int>, from: nat)
    requires Sorted(admitted) && from <= |admitted|
    ensures Sorted(admitted[from..])
  {}

  lemma AttemptRemembers(l: Limiter, admitted: seq<int>, before: int, now: int)
    requires Remembers(l.attempts, admitted, before) && Lawful(admitted, now) && before <= now
    ensures var (n, wait) := Attempt(l, now);
            var after := if wait.None? then admitted + [now] else admitted;
            Remembers(n.attempts, after, now) && Lawful(after, now)
  {
    if now >= l.lockedUntil {
      TailIsSorted(admitted, |admitted| - |l.attempts|);
      PruningRemembers(l.attempts, admitted, before, now);
      AdmittingRemembers(Recent(l.attempts, now - MINUTE), admitted, now);
    }
  }

  lemma LawfulLater(attempts: seq<int>, admitted: seq<int>, before: int, now: int)
    requires Remembers(attempts, admitted, before) && Lawful(admitted, before) && before <= now
    ensures Remembers(attempts, admitted, now) && Lawful(admitted, now)
  {}

  function Clock(evs: seq<Event>): int {
    if evs == [] then 0 else evs[|evs| - 1].at
  }

  lemma NextRemembers(l: Limiter, admitted: seq<int>, ev: Event)
    requires Remembers(l.attempts, admitted, ev.at) && Lawful(admitted, ev.at)
    ensures Remembers(Next(l, ev).attempts, admitted + AdmittedBy(l, ev), ev.at)
    ensures Lawful(admitted + AdmittedBy(l, ev), ev.at)
  {
    assert admitted + [] == admitted;
    if ev.Attempted? {
      AttemptRemembers(l, admitted, ev.at, ev.at);
    }
  }

  lemma {:induction false} RunRemembers(evs: seq<Event>)
    requires InOrder(evs)
    ensures Remembers(Run(NEW_LIMITER, evs).attempts, Admitted(evs), Clock(evs)) && Lawful(Admitted(evs), Clock(evs))
    decreases |evs|
  {
    if evs != [] {
      var n := |evs| - 1;
      RunRemembers(evs[..n]);
      var l, admitted := Run(NEW_LIMITER, evs[..n]), Admitted(evs[..n]);
      if n > 0 {
        assert evs[..n][n - 1].at <= evs[n].at;
        LawfulLater(l.attempts, admitted, Clock(evs[..n]), evs[n].at);
      }
      NextRemembers(l, admitted, evs[n]);
    }
  }

  /** How many of the times fall in the minute up to and including t. */
  function CountIn(s: seq<int>, t: int): nat
    decreases |s|
  {
    if s == [] then 0
    else CountIn(s[..|s| - 1], t) + if t - MINUTE < s[|s| - 1] <= t then 1 else 0
  }

  lemma {:induction false} OnlyTheLast(s: seq<int>, t: int, k: nat)
    requires Sorted(s) && (k < |s| ==> s[|s| - 1 - k] <= t - MINUTE)
    ensures CountIn(s, t) <= k
    decreases |s|
  {
    if s != [] {
      OnlyTheLast(s[..|s| - 1], t, if k == 0 then 0 else k - 1);
    }
  }

  lemma {:induction false} SpacedHoldsFive(s: seq<int>, t: int)
    requires Sorted(s) && Spaced(s)
    ensures CountIn(s, t) <= ATTEMPTS_PER_MINUTE
    decreases |s|
  {
    if s != [] {
      var n := |s| - 1;
      if s[n] <= t {
        OnlyTheLast(s, t, ATTEMPTS_PER_MINUTE);
      } else {
        SpacedHoldsFive(s[..n], t);
      }
    }
  }

  /** In any run with a clock that never goes back, no minute whatever admits more than five attempts. */
  lemma NoMinuteAdmitsMoreThanFive(evs: seq<Event>, t: int)
    requires InOrder(evs)
    ensures CountIn(Admitted(evs), t) <= 5
  {
    RunRemembers(evs);
    SpacedHoldsFive(Admitted(evs), t);
  }

  lemma {:induction false} RecentIsCounted(s: seq<int>, now: int)
    requires forall i :: 0 <= i < |s| ==> s[i] <= now
    ensures |Recent(s, now - MINUTE)| == CountIn(s, now)
    decreases |s|
  {
    if s != [] {
      RecentIsCounted(s[..|s| - 1], now);
    }
  }

  lemma {:induction false} OldOnesDoNotCount(old_: seq<int>, s: seq<int>, now: int)
    requires forall i :: 0 <= i < |old_| ==> old_[i] <= now - MINUTE
    ensures CountIn(old_ + s, now) == CountIn(s, now)
    decreases |s|
  {
    if s == [] {
      assert old_ + s == old_;
      OnlyOld(old_, now);
    } else {
      var n := |s| - 1;
      assert (old_ + s)[..|old_| + n] == old_ + s[..n];
      OldOnesDoNotCount(old_, s[..n], now);
    }
  }

  lemma {:induction false} OnlyOld(s: seq<int>, now: int)
    requires forall i :: 0 <= i < |s| ==> s[i] <= now - MINUTE
    ensures CountIn(s, now) == 0
    decreases |s|
  {
    if s != [] {
      OnlyOld(s[..|s| - 1], now);
    }
  }

  /** What is kept after pruning is all that was admitted in the last minute. */
  lemma KeptIsCounted(attempts: seq<int>, admitted: seq<int>, now: int)
    requires Remembers(attempts, admitted, now) && forall i :: 0 <= i < |admitted| ==> admitted[i] <= now
    ensures |Recent(attempts, now - MINUTE)| == CountIn(admitted, now)
  {
    var gone := |admitted| - |attempts|;
    assert admitted == admitted[..gone] + attempts;
    OldOnesDoNotCount(admitted[..gone], attempts, now);
    RecentIsCounted(attempts, now);
  }

  /** The clock reads now, and has never gone back. */
  predicate UpTo(evs: seq<Event>, now: int) {
    InOrder(evs) && (evs != [] ==> Clock(evs) <= now)
  }

  lemma RemembersNow(evs: seq<Event>, now: int)
    requires UpTo(evs, now)
    ensures Remembers(Run(NEW_LIMITER, evs).attempts, Admitted(evs), now) && Lawful(Admitted(evs), now)
  {
    RunRemembers(evs);
    if evs != [] {
      LawfulLater(Run(NEW_LIMITER, evs).attempts, Admitted(evs), Clock(evs), now);
    }
  }

  /**
    In any run the limiter refuses nobody without cause: an attempt is admitted exactly when
    no lock stands and fewer than five were admitted in the minute before it.
   */
  lemma AdmittedExactlyWhenAllowed(evs: seq<Event>, now: int)
    requires UpTo(evs, now)
    ensures var l := Run(NEW_LIMITER, evs);
            Attempt(l, now).1.None? <==> now >= l.lockedUntil && CountIn(Admitted(evs), now) < 5
  {
    RemembersNow(evs, now);
    KeptIsCounted(Run(NEW_LIMITER, evs).attempts, Admitted(evs), now);
  }

  /** Attempts a minute old are no hindrance. */
  lemma AdmittedOnceOld(l: Limiter, now: int)
    requires now >= l.lockedUntil && forall i :: 0 <= i < |l.attempts| ==> l.attempts[i] <= now - MINUTE
    ensures Attempt(l, now).1.None?
  {
    AllOld(l.attempts, now - MINUTE);
  }

  lemma {:induction false} RecentAreOld(s: seq<int>, cutoff: int, now: int)
    requires forall i :: 0 <= i < |s| ==> s[i] <= now
    ensures forall i :: 0 <= i < |Recent(s, cutoff)| ==> Recent(s, cutoff)[i] <= now
    decreases |s|
  {
    if s != [] {
      RecentAreOld(s[..|s| - 1], cutoff, now);
    }
  }

  lemma RememberedAreThen(evs: seq<Event>, now: int)
    requires UpTo(evs, now)
    ensures var l := Run(NEW_LIMITER, evs);
            forall i :: 0 <= i < |l.attempts| ==> l.attempts[i] <= now
  {
    RemembersNow(evs, now);
    RememberedAreAdmitted(Run(NEW_LIMITER, evs).attempts, Admitted(evs), now);
  }

  lemma RememberedAreAdmitted(attempts: seq<int>, admitted: seq<int>, now: int)
    requires Remembers(attempts, admitted, now) && forall i :: 0 <= i < |admitted| ==> admitted[i] <= now
    ensures forall i :: 0 <= i < |attempts| ==> attempts[i] <= now
  {
    forall i | 0 <= i < |attempts| ensures attempts[i] <= now {
      assert attempts[i] == admitted[|admitted| - |attempts| + i];
    }
  }

  lemma WaitIsAMinute(l: Limiter, now: int)
    requires now >= l.lockedUntil && Attempt(l, now).1.Some?
    requires forall i :: 0 <= i < |l.attempts| ==> l.attempts[i] <= now
    ensures var (n, wait) := Attempt(l, now);
            Attempt(n, now + wait.value).1.None?
  {
    RecentAreOld(l.attempts, now - MINUTE, now);
    AdmittedOnceOld(Attempt(l, now).0, now + MINUTE);
  }

  /** Whoever is turned away for too many attempts and waits as told is let in, if nothing happens meanwhile. */
  lemma WaitingIsEnough(evs: seq<Event>, now: int)
    requires UpTo(evs, now)
    requires now >= Run(NEW_LIMITER, evs).lockedUntil && Attempt(Run(NEW_LIMITER, evs), now).1.Some?
    ensures var (l, wait) := Attempt(Run(NEW_LIMITER, evs), now);
            Attempt(l, now + wait.value).1.None?
  {
    RememberedAreThen(evs, now);
    WaitIsAMinute(Run(NEW_LIMITER, evs), now);
  }

  // ---- the back-off

  lemma {:induction false} Pow2Grows(m: nat, n: nat)
    requires m <= n
    ensures 1 <= Pow2(m) <= Pow2(n)
    decreases n
  {
    if m < n {
      Pow2Grows(m, n - 1);
    } else if m > 0 {
      Pow2Grows(m - 1, m - 1);
    }
  }

  /** The wait never gets shorter with another failure, and never exceeds a quarter of an hour. */
  lemma BackoffGrows(m: nat, n: nat)
    requires ATTEMPTS_PER_MINUTE < m <= n
    ensures 2 * SECOND <= Backoff(m) <= Backoff(n) <= BACKOFF_CAP
  {
    var (x, y) := (Min(m - ATTEMPTS_PER_MINUTE, 10), Min(n - ATTEMPTS_PER_MINUTE, 10));
    Pow2Grows(1, x);
    Pow2Grows(x, y);
  }

  /** Two seconds after the sixth failure, doubled by every further one up to the fourteenth, then a quarter of an hour. */
  lemma BackoffDoubles(n: nat)
    requires n > 5
    ensures n == 6 ==> Backoff(n) == 2_000_000_000
    ensures n < 14 ==> Backoff(n + 1) == 2 * Backoff(n)
    ensures n > 14 ==> Backoff(n) == 900_000_000_000
  {
    assert Pow2(1) == 2;
    BackoffReachesTheCap(n);
    if n < 14 {
      Pow2Grows(n - 5 + 1, 9);
      assert Pow2(9) == 512 by {
        assert Pow2(5) == 32;
      }
    }
  }

  /** Whoever is turned away by the lock is told exactly how long it stands, and leaves nothing behind. */
  lemma LockSaysHowLong(l: Limiter, now: int)
    requires now < l.lockedUntil
    ensures Attempt(l, now).0 == l && Attempt(l, now).1 == Some(l.lockedUntil - now)
  {}

  lemma {:induction false} OnlyRecentKept(attempts: seq<int>, cutoff: int)
    ensures forall x :: x in Recent(attempts, cutoff) <==> x in attempts && x > cutoff
    decreases |attempts|
  {
    if attempts != [] {
      var n := |attempts| - 1;
      OnlyRecentKept(attempts[..n], cutoff);
      assert attempts == attempts[..n] + [attempts[n]];
    }
  }

  /** Unless the lock stands, an attempt leaves remembered those of the last minute, and itself if it is admitted. */
  lemma AttemptRemembersTheMinute(l: Limiter, now: int)
    requires now >= l.lockedUntil
    ensures var (n, wait) := Attempt(l, now);
            && (forall x :: x in n.attempts <==>
                  (x in l.attempts && x > now - 60_000_000_000) || (wait.None? && x == now))
            && n.failures == l.failures && n.lockedUntil == l.lockedUntil && n.alertedAtRun == l.alertedAtRun
            && (wait.Some? ==> wait.value == 60_000_000_000)
  {
    OnlyRecentKept(l.attempts, now - MINUTE);
  }

  /** What a failure changes: it counts, it locks from the sixth on, and it takes back neither a lock nor an attempt. */
  lemma FailureMeans(l: Limiter, now: int)
    ensures var n := Failure(l, now).0;
            && n.failures == l.failures + 1 && n.attempts == l.attempts
            && (l.failures < 5 ==> n.lockedUntil == l.lockedUntil)
            && (l.failures >= 5 ==> n.lockedUntil == now + Backoff(l.failures + 1))
    ensures SignIn(l) == Limiter(l.attempts, 0, l.lockedUntil, l.alertedAtRun)
  {}

  /** It reaches the cap at the fifteenth failure and not before. */
  lemma BackoffReachesTheCap(n: nat)
    requires n > ATTEMPTS_PER_MINUTE
    ensures Backoff(n) == BACKOFF_CAP <==> n >= 15
  {
    assert Pow2(9) == 512 && Pow2(10) == 1024 by {
      assert Pow2(5) == 32;
    }
    if n < 15 {
      Pow2Grows(n - ATTEMPTS_PER_MINUTE, 9);
    }
  }

  predicate NoSignIn(evs: seq<Event>) {
    forall k :: 0 <= k < |evs| ==> !evs[k].SignedIn?
  }

  /** The lock a failure set, or a longer one. */
  predicate Locked(l: Limiter, failures: nat, until: int) {
    failures > ATTEMPTS_PER_MINUTE && l.failures >= failures && l.lockedUntil >= until
  }

  lemma {:induction false} LockHolds(l: Limiter, evs: seq<Event>, at: int)
    requires l.failures > ATTEMPTS_PER_MINUTE && l.lockedUntil == at + Backoff(l.failures)
    requires NoSignIn(evs) && forall k :: 0 <= k < |evs| ==> evs[k].at >= at
    ensures Locked(Run(l, evs), l.failures, l.lockedUntil)
    decreases |evs|
  {
    if evs != [] {
      var n := |evs| - 1;
      LockHolds(l, evs[..n], at);
      var mid := Run(l, evs[..n]);
      if evs[n].Failed? {
        BackoffGrows(l.failures, mid.failures + 1);
      }
    }
  }

  lemma {:induction false} RunFurther(l: Limiter, evs: seq<Event>, more: seq<Event>)
    ensures Run(Run(l, evs), more) == Run(l, evs + more)
    decreases |more|
  {
    if more == [] {
      assert evs + more == evs;
    } else {
      var n := |more| - 1;
      RunFurther(l, evs, more[..n]);
      assert (evs + more)[..|evs| + n] == evs + more[..n];
    }
  }

  /**
    In any run with a clock that never goes back: after a failure that locks, and until
    somebody signs in, no attempt is admitted before its back-off is over, whatever other
    attempts and failures arrive meanwhile.
   */
  lemma NoneAdmittedDuringBackoff(before: seq<Event>, at: int, during: seq<Event>, now: int)
    requires InOrder(before + [Failed(at)] + during + [Attempted(now)]) && NoSignIn(during)
    requires var failures := Run(NEW_LIMITER, before).failures + 1;
             failures > ATTEMPTS_PER_MINUTE && now < at + Backoff(failures)
    ensures Attempt(Run(NEW_LIMITER, before + [Failed(at)] + during), now).1.Some?
  {
    var all := before + [Failed(at)] + during + [Attempted(now)];
    var l := Run(NEW_LIMITER, before + [Failed(at)]);
    assert (before + [Failed(at)])[..|before|] == before;
    forall k | 0 <= k < |during| ensures during[k].at >= at {
      assert all[|before|] == Failed(at) && all[|before| + 1 + k] == during[k];
    }
    LockHolds(l, during, at);
    RunFurther(NEW_LIMITER, before + [Failed(at)], during);
  }

  // ---- who is told

  function Fails(l: Limiter, times: seq<int>): Limiter
    decreases |times|
  {
    if times == [] then l else Failure(Fails(l, times[..|times| - 1]), times[|times| - 1]).0
  }

  lemma {:induction false} BurstCounts(l: Limiter, times: seq<int>)
    ensures var n := Fails(l, times);
            && n.failures == l.failures + |times|
            && n.alertedAtRun == (if |times| > 0 && n.failures >= FAILURES_BEFORE_ALERT then n.failures else l.alertedAtRun)
    decreases |times|
  {
    if times != [] {
      BurstCounts(l, times[..|times| - 1]);
    }
  }

  /**
    The n-th failure in a row since a sign-in is told of if and only if it is past the
    tenth, or it is the tenth and the last failure told of was not itself a tenth. So two
    bursts of exactly ten, a sign-in between them, are told of once.
   */
  lemma BurstIsHeardIff(l: Limiter, times: seq<int>, now: int)
    requires l.failures == 0
    ensures Failure(Fails(l, times), now).1 <==>
              |times| + 1 > 10 || (|times| + 1 == 10 && l.alertedAtRun != 10)
  {
    BurstCounts(l, times);
  }

  /** The condition bites: a second burst of ten goes unheard. */
  lemma SecondBurstGoesUnheard(first: seq<int>, second: seq<int>, now: int)
    requires |first| == 10 && |second| == 9
    ensures !Failure(Fails(SignIn(Fails(NEW_LIMITER, first)), second), now).1
  {
    BurstCounts(NEW_LIMITER, first);
    BurstIsHeardIff(SignIn(Fails(NEW_LIMITER, first)), second, now);
  }
}
