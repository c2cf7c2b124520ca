/** Login attempts: a counter key and a lock key per account, and what they bound over a whole run. */
module LoginLockout {
  import opened Keyspace

  type AccountId = string

  const MAX_ATTEMPTS := 5
  const LOCK_TTL := 15 * MINUTE
  const ATTEMPT_TTL := 15 * MINUTE

  datatype SecondFactor = Off | Missing | Wrong | Right

  /** One call of Login for a known account, with what the account record and the other keys say at that instant. */
  datatype Attempt = Attempt(now: int, verified: bool, suspended: bool, passwordMatches: bool, second: SecondFactor)

  datatype Outcome =
    | NotVerified
    | UserSuspended
    | AccountLocked(time: int)
    | AuthenticationFailed(remaining: int)
    | TwoFactorRequired
    | InvalidTwoFactorCode
    | LoggedIn

  /** What the two keys of one account amount to. */
  datatype Phase = Clear | Counting(n: int, until: int) | Locked(until: int) {
    predicate Good() { Counting? ==> 1 <= n < MAX_ATTEMPTS }

    /** The phase once the clock has reached `now`. */
    function At(now: int): Phase { if Clear? || until <= now then Clear else this }
  }

  predicate Compared(p: Phase, a: Attempt) { a.verified && !a.suspended && !p.Locked? }

  predicate FailedComparison(p: Phase, a: Attempt) { Compared(p, a) && !a.passwordMatches }

  predicate Accepted(p: Phase, a: Attempt) { Compared(p, a) && a.passwordMatches }

  /** The phase after an attempt made in phase p, and the answer given. */
  function Next(p: Phase, a: Attempt): (Phase, Outcome) {
    if !a.verified then (p, NotVerified)
    else if a.suspended then (p, UserSuspended)
    else if p.Locked? then (p, AccountLocked(p.until - a.now))
    else if a.passwordMatches then
      (Clear, match a.second case Missing => TwoFactorRequired case Wrong => InvalidTwoFactorCode case _ => LoggedIn)
    else if p.Counting? && p.n + 1 == MAX_ATTEMPTS then (Locked(a.now + LOCK_TTL), AccountLocked(LOCK_TTL))
    else if p.Counting? then (Counting(p.n + 1, p.until), AuthenticationFailed(MAX_ATTEMPTS - p.n - 1))
    else (Counting(1, a.now + ATTEMPT_TTL), AuthenticationFailed(MAX_ATTEMPTS - 1))
  }

  function Step(p: Phase, a: Attempt): Phase { Next(p.At(a.now), a).0 }

  // ---------------------------------------------------------------- the keys

  type Counters = map<AccountId, Entry<int>>
  type Locks = map<AccountId, Entry<string>>

  /** Stored counters lie between one and four, every key expires, and a counter never outlives a lock. */
  ghost predicate KeysOk(attempts: Counters, locks: Locks, now: int) {
    && (forall id <- attempts :: attempts[id].expires.Some? && 1 <= attempts[id].value < MAX_ATTEMPTS)
    && (forall id <- locks :: locks[id].expires.Some?)
    && (forall id <- locks :: id in attempts ==> locks[id].expires.value <= now)
  }

  function KeysPhase(attempts: Counters, locks: Locks, id: AccountId, now: int): (p: Phase)
    requires (id in attempts ==> attempts[id].expires.Some?) && (id in locks ==> locks[id].expires.Some?)
  {
    if Live(locks, id, now) then Locked(locks[id].expires.value)
    else if Live(attempts, id, now) then Counting(attempts[id].value, attempts[id].expires.value)
    else Clear
  }

  /** What a failed comparison does to the keys of its account: one more failure, or the lock in their place. */
  lemma FailureMovesOn(attempts: Counters, locks: Locks, clock: int, id: AccountId, a: Attempt, next: Counters, locked: Locks)
    requires KeysOk(attempts, locks, clock) && clock <= a.now && FailedComparison(KeysPhase(attempts, locks, id, clock).At(a.now), a)
    requires var tries := if Live(attempts, id, a.now) then attempts[id].value else 0;
             if tries + 1 == MAX_ATTEMPTS then next == attempts - {id} && locked == locks[id := Entry("1", Some(a.now + LOCK_TTL))]
             else && locked == locks
                  && next == attempts[id := Entry(tries + 1, if tries == 0 then Some(a.now + ATTEMPT_TTL) else attempts[id].expires)]
    ensures KeysOk(next, locked, a.now)
    ensures KeysPhase(next, locked, id, a.now) == Step(KeysPhase(attempts, locks, id, clock), a)
  {
  }

  // ---------------------------------------------------------------- the service

  class LoginGuard {
    var attempts: Counters
    var locks: Locks
    /** The instant of the latest call. */
    ghost var clock: int

    constructor (now: int)
      ensures Valid() && clock == now
      ensures forall id :: PhaseOf(id) == Clear
    {
      attempts, locks, clock := map[], map[], now;
    }

    ghost predicate Valid()
      reads this
    {
      KeysOk(attempts, locks, clock)
    }

    /** What the keys of one account amount to at the latest call. */
    ghost function PhaseOf(id: AccountId): (p: Phase)
      requires Valid()
      reads this
      ensures p.Good() && p.At(clock) == p
    {
      KeysPhase(attempts, locks, id, clock)
    }

    /** The lock key of the account is there. */
    ghost predicate IsLocked(id: AccountId, now: int)
      reads this
    {
      id in locks && locks[id].expires.Some? && now < locks[id].expires.value
    }

    /** The failures that the counter key of the account holds. */
    ghost function Tries(id: AccountId, now: int): int
      reads this
    {
      if id in attempts && attempts[id].expires.Some? && now < attempts[id].expires.value then attempts[id].value else 0
    }

    method GetLockoutTime(id: AccountId, now: int) returns (ttl: int)
      requires Valid() && clock <= now
      ensures ttl == if PhaseOf(id).At(now).Locked? then PhaseOf(id).until - now else 0
    {
      ttl := if Live(locks, id, now) then locks[id].expires.value - now else 0;
    }

    method ValidateLogin(id: AccountId, a: Attempt) returns (err: Option<Outcome>)
      requires Valid() && clock <= a.now
      ensures err.None? == Compared(PhaseOf(id).At(a.now), a)
      ensures err.Some? ==> err.value == Next(PhaseOf(id).At(a.now), a).1
      ensures err == None <==> a.verified && !a.suspended && !IsLocked(id, a.now)
      ensures err == Some(NotVerified) <==> !a.verified
      ensures err == Some(UserSuspended) <==> a.verified && a.suspended
      ensures err.Some? && a.verified && !a.suspended ==> err.value == AccountLocked(locks[id].expires.value - a.now)
    {
      if !a.verified { return Some(NotVerified); }
      if a.suspended { return Some(UserSuspended); }
      if Live(locks, id, a.now) {
        var time := GetLockoutTime(id, a.now);
        return Some(AccountLocked(time));
      }
      return None;
    }

    /** INCR, and EXPIRE for the first failure. */
    method CountFailure(id: AccountId, now: int) returns (failedAttempts: int)
      requires Valid() && clock <= now
      modifies this`attempts
      ensures failedAttempts == old(Tries(id, now)) + 1
      ensures attempts == old(attempts)[id :=
                Entry(failedAttempts, if failedAttempts == 1 then Some(now + 900_000_000_000) else old(attempts)[id].expires)]
    {
      attempts := Incr(attempts, id, now);
      failedAttempts := attempts[id].value;
      if failedAttempts == 1 {
        attempts := Expire(attempts, id, now, ATTEMPT_TTL);
      }
    }

    method ProcessLoginFailed(id: AccountId, a: Attempt) returns (outcome: Outcome)
      requires Valid() && clock <= a.now && FailedComparison(PhaseOf(id).At(a.now), a)
      modifies this
      ensures Valid() && clock == a.now
      ensures outcome == Next(old(PhaseOf(id)).At(a.now), a).1
      ensures PhaseOf(id) == Step(old(PhaseOf(id)), a)
      ensures forall other | other != id :: PhaseOf(other) == old(PhaseOf(other)).At(a.now)
      ensures var tries := old(Tries(id, a.now));
              if tries >= 4
              then && outcome == AccountLocked(900_000_000_000)
                   && attempts == old(attempts) - {id} && locks == old(locks)[id := Entry("1", Some(a.now + 900_000_000_000))]
              else && outcome == AuthenticationFailed(4 - tries) && locks == old(locks)
                   && attempts == old(attempts)[id := Entry(tries + 1, if tries == 0 then Some(a.now + 900_000_000_000)
                                                                      else old(attempts)[id].expires)]
    {
      var failedAttempts := CountFailure(id, a.now);
      if failedAttempts >= MAX_ATTEMPTS {
        locks := SetFor(locks, id, "1", a.now, LOCK_TTL);
        attempts := attempts - {id};
        outcome := AccountLocked(LOCK_TTL);
      } else {
        outcome := AuthenticationFailed(MAX_ATTEMPTS - failedAttempts);
      }
      FailureMovesOn(old(attempts), old(locks), clock, id, a, attempts, locks);
      clock := a.now;
    }

    method ProcessLoginSucceeded(id: AccountId, now: int)
      requires Valid() && clock <= now
      modifies this
      ensures Valid() && clock == now && PhaseOf(id) == Clear
      ensures attempts == old(attempts) - {id} && locks == old(locks) - {id}
      ensures forall other | other != id :: PhaseOf(other) == old(PhaseOf(other)).At(now)
    {
      attempts, locks := attempts - {id}, locks - {id};
      clock := now;
    }

    /** The two keys carry out the phases: this account moves as `Next` says, every other only with the clock. */
    method Login(id: AccountId, a: Attempt) returns (outcome: Outcome)
      requires Valid() && clock <= a.now
      modifies this
      ensures Valid() && clock == a.now
      ensures outcome == Next(old(PhaseOf(id)).At(a.now), a).1
      ensures PhaseOf(id) == Step(old(PhaseOf(id)), a)
      ensures forall other | other != id :: PhaseOf(other) == old(PhaseOf(other)).At(a.now)
      ensures outcome == NotVerified <==> !a.verified
      ensures outcome == UserSuspended <==> a.verified && a.suspended
      ensures var compared := a.verified && !a.suspended && !old(IsLocked(id, a.now));
              var tries := old(Tries(id, a.now));
              && (outcome == LoggedIn <==> compared && a.passwordMatches && a.second in {Off, Right})
              && (outcome == TwoFactorRequired <==> compared && a.passwordMatches && a.second == Missing)
              && (outcome == InvalidTwoFactorCode <==> compared && a.passwordMatches && a.second == Wrong)
              && (outcome.AuthenticationFailed? <==> compared && !a.passwordMatches && tries < 4)
              && (outcome.AuthenticationFailed? ==> outcome.remaining == 4 - tries)
              && (outcome.AccountLocked? && compared ==> tries >= 4 && outcome.time == 900_000_000_000)
              && (outcome.AccountLocked? && !compared ==> outcome.time == old(locks)[id].expires.value - a.now)
              && (!compared ==> attempts == old(attempts) && locks == old(locks))
              && (compared && a.passwordMatches ==> attempts == old(attempts) - {id} && locks == old(locks) - {id})
    {
      var err := ValidateLogin(id, a);
      if err.Some? {
        clock := a.now;
        return err.value;
      }
      if !a.passwordMatches {
        outcome := ProcessLoginFailed(id, a);
        return;
      }
      ProcessLoginSucceeded(id, a.now);
      match a.second
      case Missing => outcome := TwoFactorRequired;
      case Wrong => outcome := InvalidTwoFactorCode;
      case _ => outcome := LoggedIn;
    }
  }

  // ---------------------------------------------------------------- runs of one account

  /** The attempts of one account in the order they happen, none before `from`. */
  predicate Timed(run: seq<Attempt>, from: int)
    decreases |run|
  {
    run == [] || (from <= run[0].now && Timed(run[1..], run[0].now))
  }

  function After(p: Phase, run: seq<Attempt>): Phase
    decreases |run|
  {
    if run == [] then p else After(Step(p, run[0]), run[1..])
  }

  predicate InWindow(now: int, t: int) { t <= now < t + ATTEMPT_TTL }

  /** Failed password comparisons in the 15 minutes from t on. */
  function FailuresIn(p: Phase, run: seq<Attempt>, t: int): nat
    decreases |run|
  {
    if run == [] then 0 else
      (if InWindow(run[0].now, t) && FailedComparison(p.At(run[0].now), run[0]) then 1 else 0)
      + FailuresIn(Step(p, run[0]), run[1..], t)
  }

  /** Accepted passwords in the 15 minutes from t on. */
  function AcceptedIn(p: Phase, run: seq<Attempt>, t: int): nat
    decreases |run|
  {
    if run == [] then 0 else
      (if InWindow(run[0].now, t) && Accepted(p.At(run[0].now), run[0]) then 1 else 0)
      + AcceptedIn(Step(p, run[0]), run[1..], t)
  }

  /** How many failed comparisons phase p leaves room for between `now` and the end of the window of t. */
  function Room(p: Phase, now: int, t: int): int {
    if t + ATTEMPT_TTL <= now then 0
    else match p
      case Clear => MAX_ATTEMPTS
      case Counting(n, until) => if t + ATTEMPT_TTL <= until then MAX_ATTEMPTS - n else 2 * MAX_ATTEMPTS - 1 - n
      case Locked(until) => if t + ATTEMPT_TTL <= until then 0 else MAX_ATTEMPTS
  }

  /** Every accepted password makes room for four more failures. */
  lemma {:induction false} FailuresFitRoom(p: Phase, run: seq<Attempt>, now: int, t: int)
    requires p.Good() && t <= now && Timed(run, now)
    ensures FailuresIn(p, run, t) <= Room(p.At(now), now, t) + (MAX_ATTEMPTS - 1) * AcceptedIn(p, run, t)
    decreases |run|
  {
    if run != [] {
      var a := run[0];
      assert Room(p.At(a.now), a.now, t) <= Room(p.At(now), now, t);
      FailuresFitRoom(Step(p, a), run[1..], a.now, t);
    }
  }

  /** Over every run and from every good phase, any 15 minutes hold at most eight failed comparisons and four more
      for each password accepted in them. */
  lemma {:induction false} FailuresBoundedByAcceptances(p: Phase, run: seq<Attempt>, from: int, t: int)
    requires p.Good() && Timed(run, from)
    ensures FailuresIn(p, run, t) <= 2 * MAX_ATTEMPTS - 2 + (MAX_ATTEMPTS - 1) * AcceptedIn(p, run, t)
    decreases |run|
  {
    if run != [] {
      if run[0].now < t {
        FailuresBoundedByAcceptances(Step(p, run[0]), run[1..], run[0].now, t);
      } else {
        FailuresFitRoom(p, run, run[0].now, t);
      }
    }
  }

  /** At most eight failed comparisons in any 15 minutes in which no password is accepted. */
  lemma AtMostEightFailures(p: Phase, run: seq<Attempt>, from: int, t: int)
    requires p.Good() && Timed(run, from) && AcceptedIn(p, run, t) == 0
    ensures FailuresIn(p, run, t) <= 2 * MAX_ATTEMPTS - 2
  {
    FailuresBoundedByAcceptances(p, run, from, t);
  }

  // ---------------------------------------------------------------- the bounds are reached

  function Wrong(now: int): Attempt { Attempt(now, true, false, false, Off) }

  function Correct(now: int): Attempt { Attempt(now, true, false, true, Off) }

  /** m wrong passwords at one instant. */
  function Burst(now: int, m: nat, rest: seq<Attempt>): seq<Attempt> {
    if m == 0 then rest else [Wrong(now)] + Burst(now, m - 1, rest)
  }

  /** k rounds at one instant, each of four wrong passwords and then the right one, and five wrong ones in the end. */
  function Rounds(now: int, k: nat): seq<Attempt> {
    if k == 0 then Burst(now, 5, []) else Burst(now, 4, [Correct(now)] + Rounds(now, k - 1))
  }

  /** In the window of t the run has f failures and k acceptances, and it can start at any time up to `now`. */
  ghost predicate Yields(p: Phase, run: seq<Attempt>, now: int, t: int, f: int, k: int) {
    FailuresIn(p, run, t) == f && AcceptedIn(p, run, t) == k && forall from | from <= now :: Timed(run, from)
  }

  /** One attempt at the front of a run. */
  lemma Unfold(p: Phase, a: Attempt, rest: seq<Attempt>, later: int, t: int, f: int, k: int)
    requires Yields(Step(p, a), rest, later, t, f, k) && InWindow(a.now, t) && a.now <= later
    ensures Yields(p, [a] + rest, a.now, t,
                   f + (if FailedComparison(p.At(a.now), a) then 1 else 0), k + if Accepted(p.At(a.now), a) then 1 else 0)
  {
    assert ([a] + rest)[1..] == rest;
  }

  /** On a live counter with room for them, m wrong passwords count m. */
  lemma {:induction false} Climb(n: int, until: int, now: int, m: nat, rest: seq<Attempt>, later: int, t: int, f: int, k: int)
    requires 0 < n && n + m < MAX_ATTEMPTS && now < until && InWindow(now, t) && now <= later
    requires Yields(Counting(n + m, until), rest, later, t, f, k)
    ensures Yields(Counting(n, until), Burst(now, m, rest), now, t, f + m, k)
    decreases m
  {
    if m > 0 {
      Climb(n + 1, until, now, m - 1, rest, later, t, f, k);
      Unfold(Counting(n, until), Wrong(now), Burst(now, m - 1, rest), now, t, f + m - 1, k);
    }
  }

  /** Five wrong passwords at one instant lock a fresh account. */
  lemma LastRound(p: Phase, now: int, t: int)
    requires p.At(now) == Clear && InWindow(now, t)
    ensures Yields(p, Burst(now, 5, []), now, t, MAX_ATTEMPTS, 0)
  {
    var until := now + ATTEMPT_TTL;
    Unfold(Counting(4, until), Wrong(now), [], now, t, 0, 0);
    assert Burst(now, 1, []) == [Wrong(now)] + [];
    BurstSplit(now, 3, 1, []);
    Climb(1, until, now, 3, Burst(now, 1, []), now, t, 1, 0);
    Unfold(p, Wrong(now), Burst(now, 4, []), now, t, 4, 0);
  }

  lemma {:induction false} RoundsYield(p: Phase, now: int, k: nat, t: int)
    requires p.At(now) == Clear && InWindow(now, t)
    ensures Yields(p, Rounds(now, k), now, t, MAX_ATTEMPTS + (MAX_ATTEMPTS - 1) * k, k)
    decreases k
  {
    var until := now + ATTEMPT_TTL;
    if k == 0 {
      LastRound(p, now, t);
    } else {
      var rest := [Correct(now)] + Rounds(now, k - 1);
      RoundsYield(Clear, now, k - 1, t);
      Unfold(Counting(4, until), Correct(now), Rounds(now, k - 1), now, t, 4 * k + 1, k - 1);
      Climb(1, until, now, 3, rest, now, t, 4 * k + 1, k);
      Unfold(p, Wrong(now), Burst(now, 3, rest), now, t, 4 * k + 4, k);
    }
  }

  lemma {:induction false} BurstSplit(now: int, m: nat, n: nat, rest: seq<Attempt>)
    ensures Burst(now, m, Burst(now, n, rest)) == Burst(now, m + n, rest)
  {
    if m > 0 { BurstSplit(now, m - 1, n, rest); }
  }

  /** The room of every phase is used up by some run, with any number of acceptances unless the account stays locked. */
  lemma RoomReached(p: Phase, t: int, k: nat) returns (run: seq<Attempt>)
    requires p.Good() && p.At(t) == p && (p.Locked? && t + ATTEMPT_TTL <= p.until ==> k == 0)
    ensures Yields(p, run, t, t, Room(p, t, t) + (MAX_ATTEMPTS - 1) * k, k)
  {
    match p
    case Clear =>
      run := Rounds(t, k);
      RoundsYield(p, t, k, t);
    case Counting(n, until) =>
      if until < t + ATTEMPT_TTL {
        run := Burst(t, 4 - n, Rounds(until, k));
        RoundsYield(Counting(4, until), until, k, t);
        Climb(n, until, t, 4 - n, Rounds(until, k), until, t, 5 + 4 * k, k);
      } else if k == 0 {
        run := Burst(t, 4 - n, [Wrong(t)] + []);
        Unfold(Counting(4, until), Wrong(t), [], t, t, 0, 0);
        Climb(n, until, t, 4 - n, [Wrong(t)] + [], t, t, 1, 0);
      } else {
        var rest := [Correct(t)] + Rounds(t, k - 1);
        run := Burst(t, 4 - n, rest);
        RoundsYield(Clear, t, k - 1, t);
        Unfold(Counting(4, until), Correct(t), Rounds(t, k - 1), t, t, 4 * k + 1, k - 1);
        Climb(n, until, t, 4 - n, rest, t, t, 4 * k + 1, k);
      }
    case Locked(until) =>
      if until < t + ATTEMPT_TTL {
        run := Rounds(until, k);
        RoundsYield(p, until, k, t);
      } else {
        run := [];
      }
  }

  /** From this phase at t, 15 minutes without an accepted password never hold more than five failed comparisons. */
  ghost predicate FiveAtMost(p: Phase, t: int) {
    forall run | Timed(run, t) && AcceptedIn(p, run, t) == 0 :: FailuresIn(p, run, t) <= MAX_ATTEMPTS
  }

  /** The promise of five attempts fails exactly when a counter below four is live at the start of the window
      and expires before its end. */
  lemma FiveAtMostExactly(p: Phase, t: int)
    requires p.Good() && p.At(t) == p
    ensures FiveAtMost(p, t) <==> !(p.Counting? && p.n < MAX_ATTEMPTS - 1 && p.until < t + ATTEMPT_TTL)
  {
    var worst := RoomReached(p, t, 0);
    assert FiveAtMost(p, t) ==> FailuresIn(p, worst, t) <= MAX_ATTEMPTS;
    if Room(p, t, t) <= MAX_ATTEMPTS {
      forall run | Timed(run, t) && AcceptedIn(p, run, t) == 0 ensures FailuresIn(p, run, t) <= MAX_ATTEMPTS {
        FailuresFitRoom(p, run, t, t);
      }
    }
  }

  /** On a fresh account the bound is reached for every number of acceptances, so without a bound on those there is none. */
  lemma AcceptedPasswordsLiftTheBound(k: nat) returns (run: seq<Attempt>, t: int)
    ensures Timed(run, 0) && AcceptedIn(Clear, run, t) == k
    ensures FailuresIn(Clear, run, t) == 2 * MAX_ATTEMPTS - 2 + (MAX_ATTEMPTS - 1) * k
  {
    t := ATTEMPT_TTL - 1;
    var rest := RoomReached(Counting(1, ATTEMPT_TTL), t, k);
    run := [Wrong(0)] + rest;
    assert run[1..] == rest;
  }

  /** Eight is reached: one failure opens a counter, three come just before it expires and five just after. */
  lemma EightFailuresReached() returns (run: seq<Attempt>, t: int)
    ensures Timed(run, 0) && AcceptedIn(Clear, run, t) == 0
    ensures FailuresIn(Clear, run, t) == 2 * MAX_ATTEMPTS - 2
  {
    run, t := AcceptedPasswordsLiftTheBound(0);
  }

  lemma {:induction false} NotBefore(run: seq<Attempt>, from: int, i: nat)
    requires Timed(run, from) && i < |run|
    ensures from <= run[i].now
  {
    if i > 0 {
      NotBefore(run[1..], run[0].now, i - 1);
    }
  }

  lemma {:induction false} TimedBeforeLast(run: seq<Attempt>, a: Attempt, from: int)
    requires Timed(run + [a], from)
    ensures Timed(run, from) && from <= a.now && forall i | 0 <= i < |run| :: run[i].now <= a.now
    decreases |run|
  {
    if run != [] {
      assert (run + [a])[0] == run[0] && (run + [a])[1..] == run[1..] + [a];
      TimedBeforeLast(run[1..], a, run[0].now);
      forall i | 0 < i < |run| ensures run[i].now <= a.now { assert run[i] == run[1..][i - 1]; }
    } else {
      assert run + [a] == [a];
    }
  }

  /** While a lock lives nothing is compared, nothing unlocks the account, and the lock is not prolonged. */
  lemma {:induction false} LockHolds(run: seq<Attempt>, from: int, until: int, i: nat)
    requires Timed(run, from) && i < |run| && run[i].now < until
    ensures After(Locked(until), run[..i]) == Locked(until)
    ensures !Compared(After(Locked(until), run[..i]).At(run[i].now), run[i])
  {
    if i > 0 {
      assert run[..i][0] == run[0] && run[..i][1..] == run[1..][..i - 1];
      NotBefore(run[1..], run[0].now, i - 1);
      LockHolds(run[1..], run[0].now, until, i - 1);
    }
  }

  function Counted(p: Phase, until: int): nat {
    if p.Counting? && p.until == until && p.n >= 0 then p.n else 0
  }

  lemma {:induction false} CounterCountsFailures(p: Phase, run: seq<Attempt>, from: int)
    requires p.Good() && (p.Counting? ==> p.until <= from + ATTEMPT_TTL) && Timed(run, from)
    ensures var q := After(p, run);
            && q.Good()
            && (q.Counting? ==> q.n <= Counted(p, q.until) + FailuresIn(p, run, q.until - ATTEMPT_TTL))
    decreases |run|
  {
    if run != [] {
      CounterCountsFailures(Step(p, run[0]), run[1..], run[0].now);
    }
  }

  lemma {:induction false} AfterAppend(p: Phase, run: seq<Attempt>, a: Attempt, t: int)
    ensures After(p, run + [a]) == Step(After(p, run), a)
    ensures FailuresIn(p, run + [a], t) ==
              FailuresIn(p, run, t) + if InWindow(a.now, t) && FailedComparison(After(p, run).At(a.now), a) then 1 else 0
    decreases |run|
  {
    if run == [] {
      assert run + [a] == [a];
    } else {
      assert (run + [a])[1..] == run[1..] + [a];
      AfterAppend(Step(p, run[0]), run[1..], a, t);
    }
  }

  lemma {:induction false} FailuresInWider(p: Phase, run: seq<Attempt>, from: int, s: int, t: int)
    requires s <= t && (forall i | 0 <= i < |run| :: run[i].now < s + ATTEMPT_TTL)
    ensures FailuresIn(p, run, t) <= FailuresIn(p, run, s)
    decreases |run|
  {
    if run != [] {
      FailuresInWider(Step(p, run[0]), run[1..], from, s, t);
    }
  }

  /** An account is locked only by a failure that is at least the fifth in the 15 minutes that end with it. */
  lemma LockNeedsFiveFailures(run: seq<Attempt>, a: Attempt, from: int)
    requires Timed(run + [a], from) && Next(After(Clear, run).At(a.now), a).0.Locked?
    requires !After(Clear, run).At(a.now).Locked?
    ensures FailuresIn(Clear, run + [a], a.now - ATTEMPT_TTL + 1) >= MAX_ATTEMPTS
  {
    var t := a.now - ATTEMPT_TTL + 1;
    TimedBeforeLast(run, a, from);
    var q := After(Clear, run);
    CounterCountsFailures(Clear, run, from);
    FailuresInWider(Clear, run, from, t, q.until - ATTEMPT_TTL);
    AfterAppend(Clear, run, a, t);
  }

  // ---------------------------------------------------------------- who gets in

  predicate LogsIn(p: Phase, a: Attempt) { Next(p, a).1 == LoggedIn }

  function Logins(p: Phase, run: seq<Attempt>): nat
    decreases |run|
  {
    if run == [] then 0 else (if LogsIn(p.At(run[0].now), run[0]) then 1 else 0) + Logins(Step(p, run[0]), run[1..])
  }

  /** The accepted passwords that came with the right code. */
  function RightCodes(p: Phase, run: seq<Attempt>): nat
    decreases |run|
  {
    if run == [] then 0 else
      (if Accepted(p.At(run[0].now), run[0]) && run[0].second == Right then 1 else 0) + RightCodes(Step(p, run[0]), run[1..])
  }

  /** An account whose second factor is on is logged in once for each accepted password with the right code. */
  lemma {:induction false} EachLoginNeedsTheRightCode(p: Phase, run: seq<Attempt>)
    requires forall a <- run :: a.second != Off
    ensures Logins(p, run) == RightCodes(p, run)
    decreases |run|
  {
    if run != [] { EachLoginNeedsTheRightCode(Step(p, run[0]), run[1..]); }
  }

  /** Five failures in the 15 minutes before a lock. */
  ghost predicate Backed(run: seq<Attempt>, until: int) {
    FailuresIn(Clear, run, until - LOCK_TTL - ATTEMPT_TTL + 1) >= MAX_ATTEMPTS
  }

  lemma {:induction false} LocksAreBacked(run: seq<Attempt>, from: int)
    requires Timed(run, from) && After(Clear, run).Locked?
    ensures Backed(run, After(Clear, run).until)
    decreases |run|
  {
    if run != [] {
      var before, a := run[..|run| - 1], run[|run| - 1];
      assert before + [a] == run;
      TimedBeforeLast(before, a, from);
      var q := After(Clear, before);
      AfterAppend(Clear, before, a, After(Clear, run).until - LOCK_TTL - ATTEMPT_TTL + 1);
      if q.At(a.now).Locked? {
        LocksAreBacked(before, from);
      } else {
        LockNeedsFiveFailures(before, a, from);
      }
    }
  }

  /** Nobody is kept out without cause: with the right password, and the right code if one is asked for, a verified
      account that is not suspended is logged in unless some 15 minutes of the last 30 hold five failures. */
  lemma RightfulLoginSucceeds(run: seq<Attempt>, a: Attempt, from: int)
    requires Timed(run + [a], from) && a.verified && !a.suspended && a.passwordMatches && a.second in {Off, Right}
    requires forall t | a.now - LOCK_TTL - ATTEMPT_TTL < t <= a.now :: FailuresIn(Clear, run, t) < MAX_ATTEMPTS
    ensures LogsIn(After(Clear, run).At(a.now), a)
  {
    TimedBeforeLast(run, a, from);
    var q := After(Clear, run);
    if q.At(a.now).Locked? {
      LocksAreBacked(run, from);
      LocksEndInTime(Clear, run, from);
    }
  }

  lemma {:induction false} LocksEndInTime(p: Phase, run: seq<Attempt>, from: int)
    requires Timed(run, from) && (p.Locked? ==> p.until <= from + LOCK_TTL)
    ensures var q := After(p, run); q.Locked? ==> q.until <= (if run == [] then from else run[|run| - 1].now) + LOCK_TTL
    decreases |run|
  {
    if run != [] { LocksEndInTime(Step(p, run[0]), run[1..], run[0].now); }
  }
}
