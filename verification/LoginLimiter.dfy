/** The login rate limiter and lockout (app/services/auth.py).  Times are seconds. */
module LoginLimiter {
  import opened Wrappers
  import opened Text

  const RATE_LIMIT := 5
  const RATE_WINDOW := 300.0
  const LOCKOUT_THRESHOLD := 5
  const LOCKOUT_DURATION := 900.0

  datatype Outcome = Locked | Limited | Invalid | Success

  /** One call of `login`: who, from where, whether the user exists with that password, and the
      readings the clock gives as the call proceeds. */
  datatype Attempt = Attempt(
    username: string, ip: string, good: bool,
    lockCheck: real, pruneIp: real, pruneUser: real, recordIp: real, recordUser: real, finish: real)

  datatype Limits = Limits(attempts: map<string, seq<real>>, lockouts: map<string, real>, failures: map<string, nat>)

  const NOTHING := Limits(map[], map[], map[])

  function KeyIp(a: Attempt): string { "ip:" + a.ip }

  function KeyUser(a: Attempt): string { "user:" + a.username }

  function Times(attempts: map<string, seq<real>>, key: string): seq<real> {
    if key in attempts then attempts[key] else []
  }

  function Failures(failures: map<string, nat>, user: string): nat {
    if user in failures then failures[user] else 0
  }

  /** `[t for t in times if now - t < window]`. */
  function Recent(times: seq<real>, now: real): seq<real> {
    if times == [] then []
    else (if now - times[0] < RATE_WINDOW then [times[0]] else []) + Recent(times[1..], now)
  }

  function IsLockedSpec(s: Limits, user: string, now: real): (Limits, bool) {
    if user !in s.lockouts then (s, false)
    else if s.lockouts[user] < now then (s.(lockouts := s.lockouts - {user}), false)
    else (s, true)
  }

  function PruneSpec(s: Limits, key: string, now: real): Limits {
    s.(attempts := s.attempts[key := Recent(Times(s.attempts, key), now)])
  }

  function RecordSpec(s: Limits, key: string, now: real): Limits {
    s.(attempts := s.attempts[key := Times(s.attempts, key) + [now]])
  }

  function FailureSpec(s: Limits, user: string, now: real): Limits {
    var n := Failures(s.failures, user) + 1;
    if n >= LOCKOUT_THRESHOLD
    then s.(lockouts := s.lockouts[user := now + LOCKOUT_DURATION], failures := s.failures[user := 0])
    else s.(failures := s.failures[user := n])
  }

  function ClearSpec(s: Limits, user: string): Limits {
    s.(failures := s.failures - {user}, lockouts := s.lockouts - {user})
  }

  function LoginSpec(s: Limits, a: Attempt): (Limits, Outcome) {
    var (s0, locked) := IsLockedSpec(s, a.username, a.lockCheck);
    if locked then (s0, Locked)
    else
      var s1 := PruneSpec(s0, KeyIp(a), a.pruneIp);
      if |s1.attempts[KeyIp(a)]| >= RATE_LIMIT then (s1, Limited)
      else
        var s2 := PruneSpec(s1, KeyUser(a), a.pruneUser);
        if |s2.attempts[KeyUser(a)]| >= RATE_LIMIT then (s2, Limited)
        else if a.good then (ClearSpec(s2, a.username), Success)
        else
          var s3 := RecordSpec(RecordSpec(s2, KeyIp(a), a.recordIp), KeyUser(a), a.recordUser);
          (FailureSpec(s3, a.username, a.finish), Invalid)
  }

  /** The module's three dictionaries. */
  class Limiter {
    var attempts: map<string, seq<real>>
    var lockouts: map<string, real>
    var failures: map<string, nat>

    constructor ()
      ensures Snapshot() == NOTHING
    {
      attempts, lockouts, failures := map[], map[], map[];
    }

    function Snapshot(): Limits
      reads this
    {
      Limits(attempts, lockouts, failures)
    }

    method Prune(key: string, now: real) returns (kept: seq<real>)
      modifies this`attempts
      ensures Snapshot() == PruneSpec(old(Snapshot()), key, now)
      ensures kept == attempts[key]
    {
      var times := if key in attempts then attempts[key] else [];
      kept := [];
      var i := |times|;
      while i > 0
        invariant 0 <= i <= |times| && kept == Recent(times[i..], now)
      {
        i := i - 1;
        assert times[i..][1..] == times[i + 1..];
        if now - times[i] < RATE_WINDOW {
          kept := [times[i]] + kept;
        }
      }
      assert times[0..] == times;
      attempts := attempts[key := kept];
    }

    method IsLocked(user: string, now: real) returns (locked: bool)
      modifies this`lockouts
      ensures (Snapshot(), locked) == IsLockedSpec(old(Snapshot()), user, now)
    {
      if user !in lockouts {
        return false;
      }
      if lockouts[user] < now {
        lockouts := lockouts - {user};
        return false;
      }
      return true;
    }

    method RecordFailure(key: string, now: real)
      modifies this`attempts
      ensures Snapshot() == RecordSpec(old(Snapshot()), key, now)
    {
      if key !in attempts {
        attempts := attempts[key := []];
      }
      attempts := attempts[key := attempts[key] + [now]];
    }

    method RecordLoginFailure(user: string, now: real)
      modifies this`failures, this`lockouts
      ensures Snapshot() == FailureSpec(old(Snapshot()), user, now)
    {
      failures := failures[user := (if user in failures then failures[user] else 0) + 1];
      if failures[user] >= LOCKOUT_THRESHOLD {
        lockouts := lockouts[user := now + LOCKOUT_DURATION];
        failures := failures[user := 0];
      }
    }

    /** The control flow of `login`; the user name arrives stripped. */
    method Login(a: Attempt) returns (outcome: Outcome)
      modifies this
      ensures (Snapshot(), outcome) == LoginSpec(old(Snapshot()), a)
    {
      var locked := IsLocked(a.username, a.lockCheck);
      if locked {
        return Locked;
      }
      var kept := Prune(KeyIp(a), a.pruneIp);
      if |kept| >= RATE_LIMIT {
        return Limited;
      }
      kept := Prune(KeyUser(a), a.pruneUser);
      if |kept| >= RATE_LIMIT {
        return Limited;
      }
      if !a.good {
        RecordFailure(KeyIp(a), a.recordIp);
        RecordFailure(KeyUser(a), a.recordUser);
        RecordLoginFailure(a.username, a.finish);
        return Invalid;
      }
      failures, lockouts := failures - {a.username}, lockouts - {a.username};
      return Success;
    }
  }

  // ---- runs ------------------------------------------------------------

  function Run(tries: seq<Attempt>): Limits {
    if tries == [] then NOTHING else LoginSpec(Run(Front(tries)), Last(tries)).0
  }

  /** How the last call of a run ended. */
  function LastOutcome(tries: seq<Attempt>): Outcome
    requires tries != []
  {
    LoginSpec(Run(Front(tries)), Last(tries)).1
  }

  /** A call reads a clock that never runs backwards. */
  ghost predicate Ordered(a: Attempt) {
    a.lockCheck <= a.pruneIp <= a.pruneUser <= a.recordIp <= a.recordUser <= a.finish
  }

  /** Calls follow one another on that clock, all no later than `now`. */
  ghost predicate Sequential(tries: seq<Attempt>, now: real) {
    tries != [] ==>
      Ordered(Last(tries)) && Last(tries).finish <= now && Sequential(Front(tries), Last(tries).lockCheck)
  }

  /** All failures a run recorded under a key, in order. */
  function Recorded(tries: seq<Attempt>, key: string): seq<real> {
    if tries == [] then []
    else
      var a := Last(tries);
      Recorded(Front(tries), key)
      + (if LastOutcome(tries) != Invalid then []
         else if key == KeyIp(a) then [a.recordIp] else if key == KeyUser(a) then [a.recordUser] else [])
  }

  ghost predicate Rising(log: seq<real>) {
    forall i, j :: 0 <= i < j < |log| ==> log[i] <= log[j]
  }

  /** Any six consecutive failures span at least one window. */
  ghost predicate Spaced(log: seq<real>) {
    forall i :: 0 <= i && i + RATE_LIMIT < |log| ==> log[i + RATE_LIMIT] - log[i] >= RATE_WINDOW
  }

  /** The stored list is the recent end of the full log: whatever was dropped is a window old. */
  ghost predicate RecentEnd(times: seq<real>, log: seq<real>, now: real) {
    && |times| <= |log| && times == log[|log| - |times|..]
    && forall i :: 0 <= i < |log| - |times| ==> now - log[i] >= RATE_WINDOW
  }

  ghost predicate Tracks(times: seq<real>, log: seq<real>, now: real) {
    && RecentEnd(times, log, now)
    && (forall i :: 0 <= i < |log| ==> log[i] <= now)
    && Rising(log) && Spaced(log)
  }

  lemma TracksLater(times: seq<real>, log: seq<real>, now: real, later: real)
    requires Tracks(times, log, now) && now <= later
    ensures Tracks(times, log, later)
  {
  }

  /** On a rising log, what is recent is an end piece, and everything before it is a window old. */
  lemma {:induction false} RecentIsSuffix(log: seq<real>, k: nat, now: real) returns (d: nat)
    requires Rising(log) && k <= |log|
    ensures k <= d <= |log| && Recent(log[k..], now) == log[d..]
    ensures forall i :: k <= i < d ==> now - log[i] >= RATE_WINDOW
    decreases |log| - k
  {
    if k == |log| {
      d := k;
    } else {
      assert log[k..][1..] == log[k + 1..];
      d := RecentIsSuffix(log, k + 1, now);
      if now - log[k] < RATE_WINDOW {
        assert k + 1 < |log| ==> log[k] <= log[k + 1];
        assert log[k..] == [log[k]] + log[k + 1..];
        d := k;
      }
    }
  }

  lemma PruneRecentEnd(times: seq<real>, log: seq<real>, now: real, at: real)
    requires RecentEnd(times, log, now) && Rising(log) && now <= at
    ensures RecentEnd(Recent(times, at), log, at)
  {
    var k := |log| - |times|;
    var d := RecentIsSuffix(log, k, at);
    assert times == log[k..];
    assert |log[d..]| == |log| - d;
  }

  lemma PruneTracks(times: seq<real>, log: seq<real>, now: real, at: real)
    requires Tracks(times, log, now) && now <= at
    ensures Tracks(Recent(times, at), log, at)
  {
    PruneRecentEnd(times, log, now, at);
  }

  /** A failure is only recorded while fewer than the limit are recent, so the sixth last is old. */
  lemma RecordTracks(times: seq<real>, log: seq<real>, now: real, at: real)
    requires Tracks(times, log, now) && |times| < RATE_LIMIT && now <= at
    ensures Tracks(times + [at], log + [at], at)
  {
  }

  lemma KeysDiffer(a: Attempt)
    ensures KeyIp(a) != KeyUser(a)
  {
    assert KeyIp(a)[0] == 'i' && KeyUser(a)[0] == 'u';
  }

  /** When a login prunes one of its two lists, and when it records in it. */
  function PrunedAt(a: Attempt, key: string): real {
    if key == KeyIp(a) then a.pruneIp else a.pruneUser
  }

  function RecordedAt(a: Attempt, key: string): real {
    if key == KeyIp(a) then a.recordIp else a.recordUser
  }

  /** What one login does to the list of one key: nothing, a prune, or a prune and a record, the
      last exactly when a failure is recorded, and then only below the limit. */
  lemma LoginTimes(s: Limits, a: Attempt, key: string)
    ensures var (s', outcome) := LoginSpec(s, a);
      var times, times' := Times(s.attempts, key), Times(s'.attempts, key);
      var at, r := PrunedAt(a, key), RecordedAt(a, key);
      if outcome == Invalid && (key == KeyIp(a) || key == KeyUser(a))
      then |Recent(times, at)| < RATE_LIMIT && times' == Recent(times, at) + [r]
      else times' == times || times' == Recent(times, at)
  {
    KeysDiffer(a);
  }

  lemma {:induction false} RunTracks(tries: seq<Attempt>, now: real, key: string)
    requires Sequential(tries, now)
    ensures Tracks(Times(Run(tries).attempts, key), Recorded(tries, key), now)
  {
    if tries != [] {
      var a, log := Last(tries), Recorded(Front(tries), key);
      RunTracks(Front(tries), a.lockCheck, key);
      LoginTimes(Run(Front(tries)), a, key);
      StepTracks(Times(Run(Front(tries)).attempts, key), log, a, now, key);
    }
  }

  lemma StepTracks(times: seq<real>, log: seq<real>, a: Attempt, now: real, key: string)
    requires Tracks(times, log, a.lockCheck) && Ordered(a) && a.finish <= now
    ensures var at, r := PrunedAt(a, key), RecordedAt(a, key);
      && Tracks(times, log, now) && Tracks(Recent(times, at), log, now)
      && (|Recent(times, at)| < RATE_LIMIT ==> Tracks(Recent(times, at) + [r], log + [r], now))
      && log + [] == log
  {
    var at, r := PrunedAt(a, key), RecordedAt(a, key);
    TracksLater(times, log, a.lockCheck, now);
    PruneTracks(times, log, a.lockCheck, at);
    TracksLater(Recent(times, at), log, at, now);
    if |Recent(times, at)| < RATE_LIMIT {
      RecordTracks(Recent(times, at), log, at, r);
      TracksLater(Recent(times, at) + [r], log + [r], r, now);
    }
  }

  /** However logins follow one another, no key ever collects more than five failures within any
      window of 300 seconds: the sixth comes at least a window after the first. */
  lemma NoSixFailuresInAWindow(tries: seq<Attempt>, now: real, key: string, i: nat, j: nat)
    requires Sequential(tries, now) && i + 5 <= j < |Recorded(tries, key)|
    ensures Recorded(tries, key)[j] - Recorded(tries, key)[i] >= 300.0
  {
    RunTracks(tries, now, key);
    var log := Recorded(tries, key);
    assert log[i + RATE_LIMIT] - log[i] >= RATE_WINDOW;
    assert i + RATE_LIMIT < j ==> log[i + RATE_LIMIT] <= log[j];
  }

  // ---- lockout ---------------------------------------------------------

  /** Failures of a user since the last success or lockout. */
  function Streak(tries: seq<Attempt>, user: string): nat {
    if tries == [] then 0
    else
      var before := Streak(Front(tries), user);
      if Last(tries).username != user then before
      else match LastOutcome(tries)
        case Success => 0
        case Invalid => if before == 4 then 0 else before + 1
        case _ => before
  }

  /** The last call of the run is the failure that locks its user out. */
  predicate LocksOut(tries: seq<Attempt>) {
    tries != [] && LastOutcome(tries) == Invalid && Streak(Front(tries), Last(tries).username) == 4
  }

  /** Until when the latest lockout of a user lasts, if no success came after it. */
  function LockedUntil(tries: seq<Attempt>, user: string): Option<real> {
    if tries == [] then None
    else
      var before := LockedUntil(Front(tries), user);
      if Last(tries).username != user then before
      else if LastOutcome(tries) == Success then None
      else if LocksOut(tries) then Some(Last(tries).finish + 900.0)
      else before
  }

  /** The stored lockout is the run's, unless it ran out and was dropped. */
  ghost predicate LockMatches(lockouts: map<string, real>, user: string, until: Option<real>, now: real) {
    match until
    case None => user !in lockouts
    case Some(t) => if user in lockouts then lockouts[user] == t else t < now
  }

  /** The counter is the streak and stays below the threshold; the stored lockout is the run's. */
  lemma {:induction false} CountersMatch(tries: seq<Attempt>, now: real, user: string)
    requires Sequential(tries, now)
    ensures Failures(Run(tries).failures, user) == Streak(tries, user) < 5
    ensures LockMatches(Run(tries).lockouts, user, LockedUntil(tries, user), now)
  {
    if tries != [] {
      CountersMatch(Front(tries), Last(tries).lockCheck, user);
      LoginCounters(Run(Front(tries)), Last(tries), user);
    }
  }

  /** The login ends this user's streak: a success or the failure that reaches the threshold. */
  ghost predicate Settles(a: Attempt, outcome: Outcome, user: string, n: nat) {
    a.username == user && (outcome == Success || (outcome == Invalid && n + 1 >= LOCKOUT_THRESHOLD))
  }

  /** What one login does to the counter and the lockout of one user. */
  lemma LoginCounters(s: Limits, a: Attempt, user: string)
    ensures var (s', outcome) := LoginSpec(s, a);
      var n, n' := Failures(s.failures, user), Failures(s'.failures, user);
      && n' == (if Settles(a, outcome, user, n) then 0
                else if a.username == user && outcome == Invalid then n + 1 else n)
      && (Settles(a, outcome, user, n) ==>
            if outcome == Success then user !in s'.lockouts
            else user in s'.lockouts && s'.lockouts[user] == a.finish + LOCKOUT_DURATION)
      && (!Settles(a, outcome, user, n) ==>
            && (user in s'.lockouts ==> user in s.lockouts && s'.lockouts[user] == s.lockouts[user])
            && (user in s.lockouts && user !in s'.lockouts ==> s.lockouts[user] < a.lockCheck))
  {
  }

  /** What one login does to the stored lockouts: only its own user's moves; one that has run out is dropped;
      a success drops it, the fifth failure in a row sets it anew, and anything else keeps it. */
  lemma LockoutsExactly(s: Limits, a: Attempt, user: string)
    ensures var (s', outcome) := LoginSpec(s, a);
      var ranOut := user in s.lockouts && s.lockouts[user] < a.lockCheck;
      && (a.username != user ==> (user in s'.lockouts <==> user in s.lockouts)
                                 && (user in s.lockouts ==> s'.lockouts[user] == s.lockouts[user]))
      && (a.username == user ==>
            if outcome == Success then user !in s'.lockouts
            else if outcome == Invalid && Failures(s.failures, user) >= 4
            then user in s'.lockouts && s'.lockouts[user] == a.finish + 900.0
            else if ranOut then user !in s'.lockouts
            else (user in s'.lockouts <==> user in s.lockouts)
                 && (user in s.lockouts ==> s'.lockouts[user] == s.lockouts[user]))
  {
  }

  /** A login is refused as locked exactly while the user's latest lockout lasts. */
  lemma LockedExactly(tries: seq<Attempt>)
    requires tries != [] && Sequential(Front(tries), Last(tries).lockCheck)
    ensures var a := Last(tries);
      LastOutcome(tries) == Locked
      <==> LockedUntil(Front(tries), a.username).Some? && a.lockCheck <= LockedUntil(Front(tries), a.username).value
  {
    CountersMatch(Front(tries), Last(tries).lockCheck, Last(tries).username);
  }

  /** One more call, started while the lockout lasts, leaves it standing. */
  lemma LockPersists(tries: seq<Attempt>, user: string, until: real)
    requires tries != [] && Sequential(Front(tries), Last(tries).lockCheck)
    requires LockedUntil(Front(tries), user) == Some(until) && Last(tries).lockCheck <= until
    ensures LockedUntil(tries, user) == Some(until)
    ensures Last(tries).username == user ==> LastOutcome(tries) == Locked
  {
    if Last(tries).username == user { LockedExactly(tries); }
  }

  lemma SequentialFront(tries: seq<Attempt>, now: real)
    requires tries != [] && Sequential(tries, now)
    ensures Sequential(Front(tries), Last(tries).lockCheck)
    ensures Front(tries) != [] ==> Last(Front(tries)).lockCheck <= Last(tries).lockCheck
  {
  }

  lemma {:induction false} LockLasts(run: seq<Attempt>, later: seq<Attempt>, now: real, user: string, until: real)
    requires Sequential(run + later, now) && LockedUntil(run, user) == Some(until)
    requires later != [] ==> Last(later).lockCheck <= until
    ensures LockedUntil(run + later, user) == Some(until)
    ensures later != [] && Last(later).username == user ==> LastOutcome(run + later) == Locked
  {
    if later == [] {
      assert run + later == run;
    } else {
      var tries := run + later;
      FrontOfConcat(run, later);
      SequentialFront(tries, now);
      LockLasts(run, Front(later), Last(tries).lockCheck, user, until);
      LockPersists(tries, user, until);
    }
  }

  lemma FrontOfConcat(run: seq<Attempt>, later: seq<Attempt>)
    requires later != []
    ensures Front(run + later) == run + Front(later) && Last(run + later) == Last(later)
    ensures Front(later) != [] ==> Last(run + Front(later)) == Last(Front(later))
  {
  }

  /** After a lockout, no password of that user is checked for 900 seconds: whatever calls follow,
      each of that user's that starts in that time is refused as locked. */
  lemma NoCheckWhileLocked(run: seq<Attempt>, later: seq<Attempt>, now: real)
    requires LocksOut(run) && later != [] && Sequential(run + later, now)
    requires Last(later).username == Last(run).username
    requires Last(later).lockCheck <= Last(run).finish + 900.0
    ensures LastOutcome(run + later) == Locked
  {
    LockLasts(run, later, now, Last(run).username, Last(run).finish + 900.0);
  }

  // ---- every outcome -----------------------------------------------------

  /** When the failed calls from this address, or for this user, were recorded. */
  function IpFailures(tries: seq<Attempt>, ip: string): seq<real> {
    if tries == [] then []
    else
      IpFailures(Front(tries), ip)
      + if Last(tries).ip == ip && LastOutcome(tries) == Invalid then [Last(tries).recordIp] else []
  }

  function UserFailures(tries: seq<Attempt>, user: string): seq<real> {
    if tries == [] then []
    else
      UserFailures(Front(tries), user)
      + if Last(tries).username == user && LastOutcome(tries) == Invalid then [Last(tries).recordUser] else []
  }

  /** How many of these times are less than five minutes back. */
  function YoungerThanFiveMinutes(log: seq<real>, now: real): nat {
    if log == [] then 0
    else YoungerThanFiveMinutes(Front(log), now) + if now - Last(log) < 300.0 then 1 else 0
  }

  lemma KeysMatch(a: Attempt, ip: string, user: string)
    ensures "ip:" + ip == KeyIp(a) <==> ip == a.ip
    ensures "user:" + user == KeyUser(a) <==> user == a.username
    ensures "ip:" + ip != KeyUser(a) && "user:" + user != KeyIp(a)
  {
    assert ("ip:" + ip)[3..] == ip && ("ip:" + a.ip)[3..] == a.ip;
    assert ("user:" + user)[5..] == user && ("user:" + a.username)[5..] == a.username;
    assert ("ip:" + ip)[0] == 'i' && ("user:" + user)[0] == 'u' && KeyIp(a)[0] == 'i' && KeyUser(a)[0] == 'u';
  }

  lemma {:induction false} RecordedByKey(tries: seq<Attempt>, ip: string, user: string)
    ensures Recorded(tries, "ip:" + ip) == IpFailures(tries, ip)
    ensures Recorded(tries, "user:" + user) == UserFailures(tries, user)
  {
    hide LastOutcome, KeyIp, KeyUser;
    if tries != [] {
      RecordedByKey(Front(tries), ip, user);
      KeysMatch(Last(tries), ip, user);
    }
  }

  lemma {:induction false} YoungerConcat(a: seq<real>, b: seq<real>, now: real)
    ensures YoungerThanFiveMinutes(a + b, now) == YoungerThanFiveMinutes(a, now) + YoungerThanFiveMinutes(b, now)
  {
    if b == [] {
      assert a + b == a;
    } else {
      assert Front(a + b) == a + Front(b) && Last(a + b) == Last(b);
      YoungerConcat(a, Front(b), now);
    }
  }

  lemma {:induction false} OldCountNothing(log: seq<real>, now: real)
    requires forall i | 0 <= i < |log| :: now - log[i] >= RATE_WINDOW
    ensures YoungerThanFiveMinutes(log, now) == 0
  {
    if log != [] { OldCountNothing(Front(log), now); }
  }

  lemma {:induction false} RecentCounts(times: seq<real>, now: real)
    ensures |Recent(times, now)| == YoungerThanFiveMinutes(times, now)
  {
    if times != [] {
      RecentCounts(times[1..], now);
      assert times == [times[0]] + times[1..];
      assert Front([times[0]]) == [] && Last([times[0]]) == times[0];
      YoungerConcat([times[0]], times[1..], now);
    }
  }

  /** What a login counts for a key is what the whole history holds that is less than five minutes old. */
  lemma KeptIsYounger(tries: seq<Attempt>, now: real, key: string, at: real)
    requires Sequential(tries, now) && now <= at
    ensures |Recent(Times(Run(tries).attempts, key), at)| == YoungerThanFiveMinutes(Recorded(tries, key), at)
  {
    hide Run, Recorded, Recent, YoungerThanFiveMinutes, Spaced, Rising, Sequential;
    var times, log := Times(Run(tries).attempts, key), Recorded(tries, key);
    RunTracks(tries, now, key);
    var k := |log| - |times|;
    OldCountNothing(log[..k], at);
    YoungerConcat(log[..k], log[k..], at);
    assert log == log[..k] + log[k..];
    RecentCounts(times, at);
  }

  /** The user's latest lockout still lasts when the call looks. */
  predicate LockedOut(before: seq<Attempt>, a: Attempt) {
    LockedUntil(before, a.username).Some? && a.lockCheck <= LockedUntil(before, a.username).value
  }

  /** Fewer than five failures from the call's address, and fewer than five for its user, are less
      than five minutes old. */
  predicate BelowLimits(before: seq<Attempt>, a: Attempt) {
    && YoungerThanFiveMinutes(IpFailures(before, a.ip), a.pruneIp) < 5
    && YoungerThanFiveMinutes(UserFailures(before, a.username), a.pruneUser) < 5
  }

  /** However calls have followed one another, the next one succeeds exactly when its user is not locked
      out, both limits leave room, and the password is right; it is invalid exactly when it is wrong
      instead; and of an unlocked user it is limited exactly when they leave none. */
  lemma OutcomeExactly(before: seq<Attempt>, a: Attempt)
    requires Sequential(before, a.lockCheck) && Ordered(a)
    ensures var outcome := LastOutcome(before + [a]);
      && (outcome == Locked <==> LockedOut(before, a))
      && (outcome == Limited <==> !LockedOut(before, a) && !BelowLimits(before, a))
      && (outcome == Invalid <==> !LockedOut(before, a) && BelowLimits(before, a) && !a.good)
      && (outcome == Success <==> !LockedOut(before, a) && BelowLimits(before, a) && a.good)
  {
    hide Recent, Recorded, IpFailures, UserFailures, YoungerThanFiveMinutes, Run;
    assert Front(before + [a]) == before && Last(before + [a]) == a;
    LockedExactly(before + [a]);
    RecordedByKey(before, a.ip, a.username);
    KeptIsYounger(before, a.lockCheck, KeyIp(a), a.pruneIp);
    KeptIsYounger(before, a.lockCheck, KeyUser(a), a.pruneUser);
    KeysDiffer(a);
  }
}
