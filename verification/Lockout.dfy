/** How the lockout bounds wrong passwords at login over whole runs. */
module Lockout {
  import opened Prelude
  import opened AuthModel

  /** The handler compares a password for `u` and finds it wrong. */
  predicate WrongCheck(s: State, e: Event, u: UserId) {
    e.Login? && e.user == u && u in s.users && !LockedAt(s.users[u], e.at) && !e.passwordOk
  }

  /** The events that forgive earlier failures of `u`. */
  predicate Forgives(s: State, e: Event, u: UserId) {
    || (e.Login? && e.user == u && u in s.users && !LockedAt(s.users[u], e.at) && e.passwordOk)
    || (e.ResetPassword? && e.user == u && TicketValid(s, e))
    || (e.Reactivate? && e.user == u)
  }

  /** No request of any kind, by anyone, moves the failure counter or the lock
      of `u`, except a wrong password for `u` and a forgiving event. */
  lemma LockFieldsFrame(s: State, e: Event, u: UserId)
    requires u in s.users
    ensures u in Next(s, e).users
    ensures var a, a' := s.users[u], Next(s, e).users[u];
      if WrongCheck(s, e, u) then
        a'.failedLogins == a.failedLogins + 1
        && a'.lockedUntil == if a'.failedLogins >= MAX_FAILED_LOGINS then Some(e.lockAt + LOCKOUT) else a.lockedUntil
      else if Forgives(s, e, u) then a'.failedLogins == 0 && a'.lockedUntil == None
      else a'.failedLogins == a.failedLogins && a'.lockedUntil == a.lockedUntil
  {
    FrameByKind(s, e, u);
  }

  /** A locked account answers every login with `Locked` and changes nothing. */
  lemma LockedMeansNoCheck(s: State, e: Event)
    requires e.Login? && e.user in s.users
    ensures Step(s, e) == (s, Locked) <==> LockedAt(s.users[e.user], e.at)
  {
    if !LockedAt(s.users[e.user], e.at) {
      assert Step(s, e).1 != Locked;
    }
  }

  // ---- the counter and the lock agree ----

  ghost predicate LockCoherent(s: State) {
    forall u :: u in s.users ==> (s.users[u].failedLogins >= MAX_FAILED_LOGINS <==> s.users[u].lockedUntil.Some?)
  }

  lemma StepKeepsLockCoherent(s: State, e: Event)
    requires LockCoherent(s)
    ensures LockCoherent(Next(s, e))
  {
    var s' := Next(s, e);
    forall u | u in s'.users
      ensures s'.users[u].failedLogins >= MAX_FAILED_LOGINS <==> s'.users[u].lockedUntil.Some?
    {
      if u in s.users {
        LockFieldsFrame(s, e, u);
      } else {
        assert e.Register? || e.AcceptInvite?;
      }
    }
  }

  lemma {:induction false} RunKeepsLockCoherent(s: State, es: seq<Event>)
    requires LockCoherent(s)
    ensures LockCoherent(Run(s, es))
    decreases |es|
  {
    if es != [] {
      StepKeepsLockCoherent(s, es[0]);
      RunKeepsLockCoherent(Next(s, es[0]), es[1..]);
    }
  }

  // ---- the rate bound ----

  function WrongChecks(s: State, es: seq<Event>, u: UserId): nat
    decreases |es|
  {
    if es == [] then 0
    else (if WrongCheck(s, es[0], u) then 1 else 0) + WrongChecks(Next(s, es[0]), es[1..], u)
  }

  ghost predicate NeverForgiven(s: State, es: seq<Event>, u: UserId)
    decreases |es|
  {
    es == [] || (!Forgives(s, es[0], u) && NeverForgiven(Next(s, es[0]), es[1..], u))
  }

  /** The checks that fit in [`now`, `until`] for an account in this state: the
      free ones left, the first no earlier than the lock's end, then one for
      every full lockout period. */
  ghost function Budget(a: Account, now: Instant, until: Instant): int {
    var earliest := if LockedAt(a, now) then a.lockedUntil.value else now;
    var free := if a.failedLogins >= MAX_FAILED_LOGINS - 1 then 1 else MAX_FAILED_LOGINS - a.failedLogins;
    if until < earliest then 0 else free + (until - earliest) / LOCKOUT
  }

  lemma BudgetShrinksWithTime(a: Account, now: Instant, later: Instant, until: Instant)
    requires now <= later <= until
    ensures Budget(a, later, until) <= Budget(a, now, until)
  {
  }

  /** Paying for one wrong check: the budget drops by at least one. */
  lemma WrongCheckSpendsBudget(s: State, e: Event, u: UserId, until: Instant)
    requires WrongCheck(s, e, u)
    requires e.at <= e.lockAt <= until
    ensures u in Next(s, e).users
    ensures Budget(Next(s, e).users[u], e.lockAt, until) + 1 <= Budget(s.users[u], e.at, until)
  {
    LockFieldsFrame(s, e, u);
    var a, a' := s.users[u], Next(s, e).users[u];
    if a'.failedLogins >= MAX_FAILED_LOGINS {
      var lock := e.lockAt + LOCKOUT;
      if lock <= until {
        assert (until - lock) / LOCKOUT == (until - e.lockAt) / LOCKOUT - 1;
      }
    }
  }

  lemma {:induction false} ChecksWithinBudget(s: State, es: seq<Event>, u: UserId, now: Instant, until: Instant)
    requires u in s.users
    requires Clocked(es, now, until) && NeverForgiven(s, es, u)
    ensures WrongChecks(s, es, u) <= if until < now then 0 else Budget(s.users[u], now, until)
    decreases |es|
  {
    ClockedOrder(es, now, until);
    if es != [] {
      var e := es[0];
      LockFieldsFrame(s, e, u);
      ClockedOrder(es[1..], Finished(e), until);
      ChecksWithinBudget(Next(s, e), es[1..], u, Finished(e), until);
      BudgetShrinksWithTime(s.users[u], now, e.at, until);
      if WrongCheck(s, e, u) {
        WrongCheckSpendsBudget(s, e, u, until);
      } else {
        BudgetShrinksWithTime(s.users[u], e.at, Finished(e), until);
      }
    }
  }

  lemma {:induction false} ClockedOrder(es: seq<Event>, from: Instant, to: Instant)
    requires Clocked(es, from, to)
    ensures from <= to
  {
    if es != [] {
      ClockedOrder(es[1..], Finished(es[0]), to);
    }
  }

  /** Main result. From any state, in any interleaving of requests that lasts
      `span` and never forgives `u`, at most five logins of `u` compare a password
      and find it wrong, plus one for every full lockout period in the span. The
      password that confirms a second factor is not counted, by the code either. */
  lemma LockoutRateBound(s: State, es: seq<Event>, u: UserId, start: Instant, span: nat)
    requires u in s.users
    requires Clocked(es, start, start + span) && NeverForgiven(s, es, u)
    ensures WrongChecks(s, es, u) <= 5 + span / 1_800_000_000
  {
    ChecksWithinBudget(s, es, u, start, start + span);
  }

  // ---- the bound is attained ----

  function WrongLogin(u: UserId, at: Instant): Event {
    Login(u, false, at, at, "", true)
  }

  /** Wrong logins at `start`, one for each free failure left, then one at the
      end of each lockout. */
  function SteadyFailures(u: UserId, failed: nat, start: Instant, lockouts: nat): seq<Event>
    decreases if failed >= MAX_FAILED_LOGINS then 0 else MAX_FAILED_LOGINS - failed, lockouts
  {
    if failed < MAX_FAILED_LOGINS then
      [WrongLogin(u, start)] + SteadyFailures(u, failed + 1, start, lockouts)
    else if lockouts == 0 then []
    else [WrongLogin(u, start + LOCKOUT)] + SteadyFailures(u, failed + 1, start + LOCKOUT, lockouts - 1)
  }

  /** What the run of `SteadyFailures` should come to. */
  ghost predicate Steady(s: State, es: seq<Event>, u: UserId, start: Instant, end: Instant, count: nat) {
    Clocked(es, start, end) && NeverForgiven(s, es, u) && WrongChecks(s, es, u) == count
  }

  /** One wrong login in front of a run, at the instant from which the run is clocked. */
  lemma WrongLoginFirst(s: State, u: UserId, start: Instant, at: Instant, rest: seq<Event>, end: Instant, count: nat)
    requires u in s.users && !LockedAt(s.users[u], at) && start <= at
    requires Steady(Next(s, WrongLogin(u, at)), rest, u, at, end, count)
    ensures Steady(s, [WrongLogin(u, at)] + rest, u, start, end, count + 1)
  {
    assert ([WrongLogin(u, at)] + rest)[1..] == rest;
  }

  lemma {:induction false} SteadyFailuresCount(s: State, u: UserId, start: Instant, lockouts: nat)
    requires u in s.users
    requires s.users[u].failedLogins < MAX_FAILED_LOGINS ==> s.users[u].lockedUntil.None?
    requires s.users[u].failedLogins >= MAX_FAILED_LOGINS ==> s.users[u].lockedUntil == Some(start + LOCKOUT)
    ensures var failed := s.users[u].failedLogins;
      Steady(s, SteadyFailures(u, failed, start, lockouts), u, start, start + lockouts * LOCKOUT,
             (if failed >= MAX_FAILED_LOGINS then 0 else MAX_FAILED_LOGINS - failed) + lockouts)
    decreases if s.users[u].failedLogins >= MAX_FAILED_LOGINS then 0 else MAX_FAILED_LOGINS - s.users[u].failedLogins, lockouts
  {
    var failed := s.users[u].failedLogins;
    if failed < MAX_FAILED_LOGINS {
      var first := WrongLogin(u, start);
      LockFieldsFrame(s, first, u);
      SteadyFailuresCount(Next(s, first), u, start, lockouts);
      WrongLoginFirst(s, u, start, start, SteadyFailures(u, failed + 1, start, lockouts), start + lockouts * LOCKOUT,
                      MAX_FAILED_LOGINS - failed - 1 + lockouts);
    } else if lockouts > 0 {
      var later := start + LOCKOUT;
      LockFieldsFrame(s, WrongLogin(u, later), u);
      SteadyFailuresCount(Next(s, WrongLogin(u, later)), u, later, lockouts - 1);
      assert later + (lockouts - 1) * LOCKOUT == start + lockouts * LOCKOUT;
      WrongLoginFirst(s, u, start, later, SteadyFailures(u, failed + 1, later, lockouts - 1), start + lockouts * LOCKOUT,
                      lockouts - 1);
    }
  }

  /** No smaller bound holds: an account with a clean record meets it with
      equality for every number of lockout periods. */
  lemma LockoutRateBoundIsTight(s: State, u: UserId, start: Instant, lockouts: nat)
    requires u in s.users && s.users[u].failedLogins == 0 && s.users[u].lockedUntil.None?
    ensures exists es ::
      Clocked(es, start, start + lockouts * LOCKOUT) && NeverForgiven(s, es, u)
      && WrongChecks(s, es, u) == MAX_FAILED_LOGINS + (lockouts * LOCKOUT) / LOCKOUT
  {
    SteadyFailuresCount(s, u, start, lockouts);
    assert WrongChecks(s, SteadyFailures(u, 0, start, lockouts), u) == MAX_FAILED_LOGINS + (lockouts * LOCKOUT) / LOCKOUT;
  }
}
