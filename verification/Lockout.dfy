/**
 The brute-force lock of one account. A wrong password runs one SQL UPDATE whose assignments
 take effect from left to right, each seeing the ones before it.
 */
module Lockout {
  import opened Clock
  import opened Wrappers

  const DAY: int := 24 * 60 * MINUTE
  const LOCK_THRESHOLD: int := 10
  const LOCK_BASE_MINUTES: int := 15
  const LOCK_MAX_MINUTES: int := 60

  datatype Counters = Counters(lockCount: nat, failedLogins: nat, lastFailedLoginAt: Option<Time>,
      lockedUntil: Option<Time>)

  predicate IsBruteForceLocked(c: Counters, now: Time) {
    c.lockedUntil.Some? && c.lockedUntil.value > now
  }

  // ---- the UPDATE statement -------------------------------------------------------------

  /** `x <= y` in SQL: unknown when `x` is NULL. */
  function SqlAtMost(x: Option<Time>, y: Time): Option<bool> {
    if x.None? then None else Some(x.value <= y)
  }

  /** `IF(condition, a, b)`: an unknown condition chooses `b`. */
  function SqlIf<T>(condition: Option<bool>, a: T, b: T): T {
    if condition == Some(true) then a else b
  }

  function Least(a: int, b: int): int {
    if a <= b then a else b
  }

  function Pow2(n: nat): int {
    if n == 0 then 1 else 2 * Pow2(n - 1)
  }

  /** 15, 30, then 60 minutes. */
  function LockMinutes(level: int): int {
    if level <= 0 then 15 else if level == 1 then 30 else 60
  }

  lemma BackoffIsLockMinutes(level: nat)
    ensures Least(LOCK_BASE_MINUTES * Pow2(Least(level, 6)), LOCK_MAX_MINUTES) == LockMinutes(level)
  {
  }

  /** One wrong password: let counts older than a day lapse, count it, and lock at the tenth. */
  function WrongPassword(c: Counters, now: Time): Counters {
    var level := if c.lockedUntil.Some? && c.lockedUntil.value + DAY <= now then 0 else c.lockCount;
    var lapsed := c.lastFailedLoginAt.Some? && c.lastFailedLoginAt.value + DAY <= now;
    var count := 1 + (if lapsed then 0 else c.failedLogins);
    if count < LOCK_THRESHOLD then Counters(level, count, Some(now), c.lockedUntil)
    else Counters(level + 1, 0, Some(now), Some(now + LockMinutes(level) * MINUTE))
  }

  function SignedIn(c: Counters): Counters {
    c.(failedLogins := 0, lockCount := 0)
  }

  /** What accepting an invitation, completing a reset and an administrator's unlock leave. */
  function Unlocked(c: Counters): Counters {
    c.(failedLogins := 0, lockedUntil := None, lockCount := 0)
  }

  /** The count stays below the threshold, and an account that was ever locked knows until when. */
  predicate InRange(c: Counters) {
    c.failedLogins < LOCK_THRESHOLD && (c.lockCount > 0 ==> c.lockedUntil.Some?)
  }

  lemma StaysInRange(c: Counters, now: Time)
    requires InRange(c)
    ensures InRange(WrongPassword(c, now)) && InRange(SignedIn(c)) && InRange(Unlocked(c))
    ensures IsBruteForceLocked(WrongPassword(c, now), now) <==>
              IsBruteForceLocked(c, now) || WrongPassword(c, now).failedLogins == 0
    ensures !IsBruteForceLocked(Unlocked(c), now)
  {
  }

  class UserRow {
    var lockCount: nat
    var failedLogins: nat
    var lastFailedLoginAt: Option<Time>
    var lockedUntil: Option<Time>

    function View(): Counters
      reads this
    {
      Counters(lockCount, failedLogins, lastFailedLoginAt, lockedUntil)
    }

    constructor ()
      ensures View() == Counters(0, 0, None, None) && InRange(View())
    {
      lockCount, failedLogins, lastFailedLoginAt, lockedUntil := 0, 0, None, None;
    }

    constructor From(c: Counters)
      ensures View() == c
    {
      lockCount, failedLogins := c.lockCount, c.failedLogins;
      lastFailedLoginAt, lockedUntil := c.lastFailedLoginAt, c.lockedUntil;
    }

    /** The six assignments in their order are one wrong password. */
    method RegisterFailedAttempt(now: Time)
      modifies this
      ensures View() == WrongPassword(old(View()), now) && (InRange(old(View())) ==> InRange(View()))
      ensures lastFailedLoginAt == Some(now)
      ensures old(lastFailedLoginAt).Some? && old(lastFailedLoginAt).value + DAY <= now ==>
              failedLogins == 1 && lockedUntil == old(lockedUntil)
      ensures old(lastFailedLoginAt).None? || old(lastFailedLoginAt).value + DAY > now ==>
              if old(failedLogins) + 1 < LOCK_THRESHOLD
              then failedLogins == old(failedLogins) + 1 && lockedUntil == old(lockedUntil)
              else failedLogins == 0 && lockedUntil.Some? && lockedUntil.value > now
    {
      if InRange(View()) {
        StaysInRange(View(), now);
      }
      lockCount := SqlIf(SqlAtMost(lockedUntil, now - DAY), 0, lockCount);
      failedLogins := SqlIf(SqlAtMost(lastFailedLoginAt, now - DAY), 0, failedLogins) + 1;
      lastFailedLoginAt := Some(now);
      BackoffIsLockMinutes(lockCount);
      var lockMinutes := Least(LOCK_BASE_MINUTES * Pow2(Least(lockCount, 6)), LOCK_MAX_MINUTES);
      lockedUntil := SqlIf(Some(failedLogins >= LOCK_THRESHOLD), Some(now + lockMinutes * MINUTE), lockedUntil);
      lockCount := SqlIf(Some(failedLogins >= LOCK_THRESHOLD), lockCount + 1, lockCount);
      failedLogins := SqlIf(Some(failedLogins >= LOCK_THRESHOLD), 0, failedLogins);
    }

    /** A sign-in to an active account: refused unseen while locked, else decided by the password. */
    method Login(passwordOk: bool, now: Time) returns (signedIn: bool)
      modifies this
      ensures signedIn <==> passwordOk && !IsBruteForceLocked(old(View()), now)
      ensures View() == if IsBruteForceLocked(old(View()), now) then old(View())
                        else if passwordOk then SignedIn(old(View())) else WrongPassword(old(View()), now)
      ensures InRange(old(View())) ==> InRange(View())
    {
      if IsBruteForceLocked(View(), now) {
        return false;
      }
      if !passwordOk {
        RegisterFailedAttempt(now);
        return false;
      }
      failedLogins, lockCount := 0, 0;
      return true;
    }
  }

  // ---- how many guesses a day allows ----------------------------------------------------

  /** One wrong password after another, at the given times; a locked account does not look at them. */
  function Guesses(c: Counters, times: seq<Time>): Counters {
    if times == [] then c else Guess(Guesses(c, times[..|times| - 1]), times[|times| - 1])
  }

  function Guess(c: Counters, now: Time): Counters {
    if IsBruteForceLocked(c, now) then c else WrongPassword(c, now)
  }

  function Counted(c: Counters, times: seq<Time>): nat {
    if times == [] then 0
    else Counted(c, times[..|times| - 1]) +
         (if IsBruteForceLocked(Guesses(c, times[..|times| - 1]), times[|times| - 1]) then 0 else 1)
  }

  function Locks(c: Counters, times: seq<Time>): nat {
    if times == [] then 0
    else
      var s := Guesses(c, times[..|times| - 1]);
      var now := times[|times| - 1];
      var locksNow := !IsBruteForceLocked(s, now) && WrongPassword(s, now).failedLogins == 0;
      Locks(c, times[..|times| - 1]) + (if locksNow then 1 else 0)
  }

  /** Minutes that `n` locks in a row take: 15, then 30, then 60 each. */
  function Span(n: nat): int {
    if n == 0 then 0 else if n == 1 then 15 else 45 + 60 * (n - 2)
  }

  predicate Sorted(times: seq<Time>) {
    forall i, j | 0 <= i < j < |times| :: times[i] <= times[j]
  }

  predicate WithinADay(times: seq<Time>, start: Time) {
    Sorted(times) && forall i | 0 <= i < |times| :: start <= times[i] < start + DAY
  }

  /** `s` after `n` counted guesses and `locks` locks since `start`, when it was `c`. */
  predicate WindowOk(c: Counters, s: Counters, n: nat, locks: nat, start: Time) {
    && InRange(s)
    && (n == 0 ==> s == c && locks == 0)
    && (n > 0 ==> n <= LOCK_THRESHOLD * locks + s.failedLogins)
    && (n > 0 ==> s.lastFailedLoginAt.Some? && s.lastFailedLoginAt.value >= start)
    && (locks > 0 ==>
         s.lockCount >= locks && s.lockedUntil.Some? && s.lockedUntil.value >= start + Span(locks) * MINUTE)
    && (locks > 0 ==> Span(locks - 1) * MINUTE < DAY)
    && (Span(locks) * MINUTE >= DAY ==> s.failedLogins == 0)
  }

  lemma GuessKeepsWindow(c: Counters, s: Counters, n: nat, locks: nat, start: Time, now: Time)
    requires InRange(c) && WindowOk(c, s, n, locks, start) && start <= now < start + DAY && !IsBruteForceLocked(s, now)
    ensures WindowOk(c, WrongPassword(s, now), n + 1,
            locks + (if WrongPassword(s, now).failedLogins == 0 then 1 else 0), start)
  {
  }

  /**
   No count lapses between two guesses of one window, so ten counted guesses make a lock, and
   each lock lasts at least as long as the previous ones of the window have driven it up to.
   */
  lemma {:induction false} WindowInvariant(c: Counters, times: seq<Time>, start: Time)
    requires InRange(c) && WithinADay(times, start)
    ensures WindowOk(c, Guesses(c, times), Counted(c, times), Locks(c, times), start)
  {
    if times != [] {
      var init, now := times[..|times| - 1], times[|times| - 1];
      WindowInvariant(c, init, start);
      if !IsBruteForceLocked(Guesses(c, init), now) {
        GuessKeepsWindow(c, Guesses(c, init), Counted(c, init), Locks(c, init), start, now);
      }
    }
  }

  /**
   In less than a day at most 26 locks fit, and at most 260 wrong passwords are looked at: the
   account stays locked from the last of those locks to the end of the window.
   */
  lemma GuessBound(c: Counters, times: seq<Time>, start: Time)
    requires InRange(c) && WithinADay(times, start)
    ensures Counted(c, times) <= 10 * Locks(c, times) + 9
    ensures Locks(c, times) <= 26
    ensures Counted(c, times) <= 260
  {
    WindowInvariant(c, times, start);
  }

  // ---- the bound is reached -------------------------------------------------------------

  const NO_FAILURES: Counters := Counters(0, 0, None, None)

  /** Guesses by the ten, as soon as the account is first, and then again, open. */
  function Attack(k: nat): seq<Time> {
    if k == 0 then [] else Attack(k - 1) + [Span((k - 1) / 10) * MINUTE]
  }

  /** Locked `n` times, and failed `failed` times since the lock was over. */
  function Attacked(n: nat, failed: nat): Counters {
    Counters(n, failed,
             if failed > 0 then Some(Span(n) * MINUTE) else if n > 0 then Some(Span(n - 1) * MINUTE) else None,
             if n > 0 then Some(Span(n) * MINUTE) else None)
  }

  lemma AttackGoesOn(n: nat, failed: nat)
    requires failed < LOCK_THRESHOLD
    ensures var now, next := Span(n) * MINUTE, if failed == 9 then Attacked(n + 1, 0) else Attacked(n, failed + 1);
            !IsBruteForceLocked(Attacked(n, failed), now) && WrongPassword(Attacked(n, failed), now) == next
  {
    assert Span(n + 1) == Span(n) + LockMinutes(n);
  }

  lemma NextOfTen(k: nat)
    ensures (k + 1) / 10 == (if k % 10 == 9 then k / 10 + 1 else k / 10)
    ensures (k + 1) % 10 == (if k % 10 == 9 then 0 else k % 10 + 1)
  {
  }

  ghost predicate Leaves(c: Counters, times: seq<Time>, counted: nat, s: Counters) {
    Counted(c, times) == counted && Guesses(c, times) == s
  }

  lemma OneMore(c: Counters, times: seq<Time>, now: Time, n: nat, s: Counters)
    requires Leaves(c, times, n, s) && !IsBruteForceLocked(s, now)
    ensures Leaves(c, times + [now], n + 1, WrongPassword(s, now))
  {
    assert (times + [now])[..|times|] == times;
  }

  lemma AttackOnce(k: nat)
    requires Leaves(NO_FAILURES, Attack(k), k, Attacked(k / 10, k % 10))
    ensures Leaves(NO_FAILURES, Attack(k) + [Span(k / 10) * MINUTE], k + 1, Attacked((k + 1) / 10, (k + 1) % 10))
  {
    AttackGoesOn(k / 10, k % 10);
    OneMore(NO_FAILURES, Attack(k), Span(k / 10) * MINUTE, k, Attacked(k / 10, k % 10));
    NextOfTen(k);
  }

  lemma AttackStarts()
    ensures Leaves(NO_FAILURES, Attack(0), 0, Attacked(0 / 10, 0 % 10))
  {
  }

  lemma {:induction false} AttackCounts(k: nat)
    ensures Leaves(NO_FAILURES, Attack(k), k, Attacked(k / 10, k % 10))
  {
    if k == 0 {
      AttackStarts();
    } else {
      AttackCounts(k - 1);
      AttackOnce(k - 1);
    }
  }

  lemma {:induction false} SpanGrows(m: nat, n: nat)
    requires m <= n
    ensures 0 <= Span(m) <= Span(n)
  {
  }

  lemma {:induction false} AttackTimes(k: nat)
    ensures |Attack(k)| == k && forall i | 0 <= i < k :: Attack(k)[i] == Span(i / 10) * MINUTE
  {
    if k > 0 {
      AttackTimes(k - 1);
    }
  }

  lemma AttackInADay(k: nat)
    requires k <= 260
    ensures WithinADay(Attack(k), 0)
  {
    AttackTimes(k);
    forall i, j | 0 <= i <= j < k ensures 0 <= Attack(k)[i] <= Attack(k)[j] < DAY {
      SpanGrows(i / 10, j / 10);
    }
  }

  /** Both bounds are reached: 26 locks and 260 wrong passwords looked at within a day. */
  lemma GuessBoundIsReached() returns (times: seq<Time>)
    ensures WithinADay(times, 0) && Counted(NO_FAILURES, times) == 260 && Locks(NO_FAILURES, times) == 26
  {
    var k := 260;
    times := Attack(k);
    AttackInADay(k);
    AttackCounts(k);
    GuessBound(NO_FAILURES, times, 0);
  }

  // ---- when a lock comes, and for how long ----------------------------------------------

  /** What can happen to an account's lock; accepting an invitation and completing a reset unlock too. */
  datatype Event = Attempt(at: Time, passwordOk: bool) | Unlock

  function Next(c: Counters, e: Event): Counters {
    if e.Unlock? then Unlocked(c)
    else if IsBruteForceLocked(c, e.at) then c
    else if e.passwordOk then SignedIn(c) else WrongPassword(c, e.at)
  }

  function Through(c: Counters, events: seq<Event>): Counters {
    if events == [] then c else Next(Through(c, events[..|events| - 1]), events[|events| - 1])
  }

  /** What shows of an event: a wrong password that was looked at and the lock it brought on, or a fresh start. */
  datatype Note = Failure(at: Time, until: Option<Time>) | FreshStart

  /** A locked account looks at nothing. */
  function Noted(c: Counters, e: Event): seq<Note> {
    if e.Unlock? then [FreshStart]
    else if IsBruteForceLocked(c, e.at) then []
    else if e.passwordOk then [FreshStart]
    else [Failure(e.at, if IsBruteForceLocked(Next(c, e), e.at) then Next(c, e).lockedUntil else None)]
  }

  function History(c: Counters, events: seq<Event>): seq<Note> {
    if events == [] then []
    else History(c, events[..|events| - 1]) + Noted(Through(c, events[..|events| - 1]), events[|events| - 1])
  }

  predicate InOrder(events: seq<Event>) {
    forall i, j | 0 <= i < j < |events| && events[i].Attempt? && events[j].Attempt? :: events[i].at <= events[j].at
  }

  /** Failures still counted at `now`: those since the last lock, fresh start or pause of a day. */
  function Streak(c: Counters, notes: seq<Note>, now: Time): nat {
    if notes == [] then
      if c.lastFailedLoginAt.Some? && c.lastFailedLoginAt.value + DAY <= now then 0 else c.failedLogins
    else
      var last := notes[|notes| - 1];
      if last.FreshStart? || last.until.Some? || last.at + DAY <= now then 0
      else 1 + Streak(c, notes[..|notes| - 1], last.at)
  }

  /** Locks still counted at `now`: those since the last fresh start or day without a lock. */
  function Level(c: Counters, notes: seq<Note>, now: Time): nat {
    if notes == [] then if c.lockedUntil.Some? && c.lockedUntil.value + DAY <= now then 0 else c.lockCount
    else
      var before, last := notes[..|notes| - 1], notes[|notes| - 1];
      if last.FreshStart? then 0
      else if last.until.None? then Level(c, before, now)
      else if last.until.value + DAY <= now then 0
      else 1 + Level(c, before, last.at)
  }

  /** The counters say no more than the history does. */
  ghost predicate Tells(c: Counters, notes: seq<Note>, s: Counters, now: Time) {
    && Streak(c, notes, now) ==
       (if s.lastFailedLoginAt.Some? && s.lastFailedLoginAt.value + DAY <= now then 0 else s.failedLogins)
    && Level(c, notes, now) == (if s.lockedUntil.Some? && s.lockedUntil.value + DAY <= now then 0 else s.lockCount)
  }

  lemma NextTells(c: Counters, notes: seq<Note>, s: Counters, e: Event, now: Time)
    requires InRange(s) && Tells(c, notes, s, now)
    requires e.Attempt? ==> e.at <= now && Tells(c, notes, s, e.at)
    ensures InRange(Next(s, e)) && Tells(c, notes + Noted(s, e), Next(s, e), now)
  {
    assert notes + [] == notes;
    assert forall note :: (notes + [note])[..|notes|] == notes;
  }

  lemma {:induction false} HistoryTells(c: Counters, events: seq<Event>, now: Time)
    requires InRange(c) && InOrder(events) && forall e | e in events && e.Attempt? :: e.at <= now
    ensures InRange(Through(c, events)) && Tells(c, History(c, events), Through(c, events), now)
  {
    if events != [] {
      var init, e := events[..|events| - 1], events[|events| - 1];
      HistoryTells(c, init, now);
      if e.Attempt? {
        HistoryTells(c, init, e.at);
      }
      NextTells(c, History(c, init), Through(c, init), e, now);
    }
  }

  lemma EarlierEvents(events: seq<Event>, now: Time)
    requires InOrder(events + [Attempt(now, false)])
    ensures InOrder(events) && forall e | e in events && e.Attempt? :: e.at <= now
  {
    var all := events + [Attempt(now, false)];
    assert forall i | 0 <= i < |events| :: all[i] == events[i];
    assert all[|events|] == Attempt(now, false);
  }

  /**
   A wrong password that is looked at locks the account exactly when it is the tenth since the last
   lock, fresh start or pause of a day, and then for 15, 30 or 60 minutes, as there was no lock
   since the last fresh start or day without one, one lock, or more. This holds of every attempt
   in every series, over any span of time.
   */
  lemma LocksAtTheTenth(c: Counters, events: seq<Event>, now: Time)
    requires InRange(c) && InOrder(events + [Attempt(now, false)])
    requires !IsBruteForceLocked(Through(c, events), now)
    ensures var notes, after := History(c, events), Through(c, events + [Attempt(now, false)]);
            && Streak(c, notes, now) <= 9
            && (IsBruteForceLocked(after, now) <==> Streak(c, notes, now) == 9)
            && (IsBruteForceLocked(after, now) ==>
                 var minutes := match Level(c, notes, now) case 0 => 15 case 1 => 30 case _ => 60;
                 after.lockedUntil == Some(now + minutes * MINUTE))
  {
    EarlierEvents(events, now);
    assert (events + [Attempt(now, false)])[..|events|] == events;
    HistoryTells(c, events, now);
  }

  /** Note `i` is a counted failure that brought on no lock, and the next attempt comes within a day of it. */
  ghost predicate Continues(notes: seq<Note>, i: nat, now: Time)
    requires i < |notes|
  {
    && notes[i].Failure? && notes[i].until.None?
    && (i + 1 < |notes| ==> notes[i + 1].Failure?)
    && notes[i].at + DAY > (if i + 1 < |notes| then notes[i + 1].at else now)
  }

  /** At least `k` failures are counted exactly if the last `k` notes are failures that nothing came between. */
  lemma {:induction false} StreakIs(c: Counters, notes: seq<Note>, now: Time, k: nat)
    requires k <= |notes|
    ensures Streak(c, notes, now) >= k <==> forall i | |notes| - k <= i < |notes| :: Continues(notes, i, now)
  {
    if k > 0 {
      var before, last := notes[..|notes| - 1], notes[|notes| - 1];
      if Continues(notes, |notes| - 1, now) {
        StreakIs(c, before, last.at, k - 1);
        assert forall i | 0 <= i < |before| :: Continues(before, i, last.at) <==> Continues(notes, i, now);
      }
    }
  }

  /** A lock that comes a day or more after every earlier one has ended starts again at 15 minutes. */
  lemma {:induction false} LevelLapses(c: Counters, notes: seq<Note>, now: Time)
    requires c.lockCount == 0 || (c.lockedUntil.Some? && c.lockedUntil.value + DAY <= now)
    requires forall n | n in notes && n.Failure? && n.until.Some? :: n.until.value + DAY <= now
    ensures Level(c, notes, now) == 0
    decreases |notes|
  {
    if notes != [] {
      LevelLapses(c, notes[..|notes| - 1], now);
    }
  }

  function WrongOnly(times: seq<Time>): seq<Event> {
    seq(|times|, i requires 0 <= i < |times| => Attempt(times[i], false))
  }

  lemma {:induction false} GuessesAreAttempts(c: Counters, times: seq<Time>)
    ensures Through(c, WrongOnly(times)) == Guesses(c, times)
    ensures Counted(c, times) == |History(c, WrongOnly(times))|
    decreases |times|
  {
    if times != [] {
      GuessesAreAttempts(c, times[..|times| - 1]);
      assert WrongOnly(times)[..|times| - 1] == WrongOnly(times[..|times| - 1]);
    }
  }

  lemma OneMoreAttempt(times: seq<Time>, now: Time)
    ensures WrongOnly(times + [now]) == WrongOnly(times) + [Attempt(now, false)]
    ensures Sorted(times + [now]) ==> InOrder(WrongOnly(times + [now]))
  {
  }

  /** So it is of guesses alone: a lock comes exactly with the tenth counted one. */
  lemma GuessesLockAtTheTenth(c: Counters, times: seq<Time>, now: Time)
    requires InRange(c) && Sorted(times + [now]) && !IsBruteForceLocked(Guesses(c, times), now)
    ensures IsBruteForceLocked(Guesses(c, times + [now]), now) <==> Streak(c, History(c, WrongOnly(times)), now) == 9
  {
    OneMoreAttempt(times, now);
    GuessesAreAttempts(c, times);
    GuessesAreAttempts(c, times + [now]);
    LocksAtTheTenth(c, WrongOnly(times), now);
  }

  lemma LateLockIsShort(c: Counters, events: seq<Event>, now: Time)
    requires InRange(c) && InOrder(events + [Attempt(now, false)])
    requires !IsBruteForceLocked(Through(c, events), now)
    requires IsBruteForceLocked(Through(c, events + [Attempt(now, false)]), now)
    requires c.lockedUntil.None? || c.lockedUntil.value + DAY <= now
    requires forall n | n in History(c, events) && n.Failure? && n.until.Some? :: n.until.value + DAY <= now
    ensures Through(c, events + [Attempt(now, false)]).lockedUntil == Some(now + 15 * MINUTE)
  {
    LocksAtTheTenth(c, events, now);
    LevelLapses(c, History(c, events), now);
  }
}
