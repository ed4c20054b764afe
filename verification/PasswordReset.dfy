/** Reset links over whole runs. */
module PasswordReset {
  import opened AuthModel

  /** The request resets the password of `u` with this ticket. */
  predicate Resets(s: State, e: Event, u: UserId, ticket: Hash) {
    e.ResetPassword? && e.user == u && e.tokenHash == ticket && TicketValid(s, e)
  }

  predicate Holds(s: State, u: UserId, ticket: Hash) {
    u in s.users && s.users[u].reset.Some? && s.users[u].reset.value.tokenHash == ticket
  }

  lemma ResetUsesTicket(s: State, e: Event)
    requires e.ResetPassword? && TicketValid(s, e)
    ensures e.user in Next(s, e).users && Next(s, e).users[e.user].reset.None?
  {
  }

  lemma OthersKeepTickets(s: State, e: Event, u: UserId)
    requires u in s.users && !(e.ForgotPassword? && e.user == u) && !(e.ResetPassword? && e.user == u)
    ensures u in Next(s, e).users && Next(s, e).users[u].reset == s.users[u].reset
  {
    FrameByKind(s, e, u);
  }

  lemma NewcomersHaveNone(s: State, e: Event, u: UserId)
    requires u !in s.users && u in Next(s, e).users
    ensures Next(s, e).users[u].reset.None?
  {
  }

  /** A ticket appears only by being issued, and a reset uses it up, whether or not
      the sessions could be ended after it. */
  lemma TicketFrame(s: State, e: Event, u: UserId, ticket: Hash)
    ensures Resets(s, e, u, ticket) ==> Holds(s, u, ticket) && !Holds(Next(s, e), u, ticket)
    ensures Holds(Next(s, e), u, ticket) && !Holds(s, u, ticket) ==>
      e.ForgotPassword? && e.user == u && e.tokenHash == ticket
      && Next(s, e).users[u].reset.value.expiresAt == e.at + 60 * MINUTE
  {
    if u !in s.users {
      if u in Next(s, e).users {
        NewcomersHaveNone(s, e, u);
      }
    } else if e.ResetPassword? && e.user == u {
      if TicketValid(s, e) {
        ResetUsesTicket(s, e);
      }
    } else if !(e.ForgotPassword? && e.user == u) {
      OthersKeepTickets(s, e, u);
    }
  }

  function Resettings(s: State, es: seq<Event>, u: UserId, ticket: Hash): nat
    decreases |es|
  {
    if es == [] then 0
    else (if Resets(s, es[0], u, ticket) then 1 else 0) + Resettings(Next(s, es[0]), es[1..], u, ticket)
  }

  ghost predicate NeverIssued(es: seq<Event>, u: UserId, ticket: Hash) {
    forall i :: 0 <= i < |es| ==> !(es[i].ForgotPassword? && es[i].user == u && es[i].tokenHash == ticket)
  }

  /** Main result: a reset link works at most once, in every run in which it is not
      issued again. */
  lemma {:induction false} TicketUsedAtMostOnce(s: State, es: seq<Event>, u: UserId, ticket: Hash)
    requires NeverIssued(es, u, ticket)
    ensures Resettings(s, es, u, ticket) <= (if Holds(s, u, ticket) then 1 else 0)
    decreases |es|
  {
    if es != [] {
      TicketFrame(s, es[0], u, ticket);
      assert NeverIssued(es[1..], u, ticket);
      TicketUsedAtMostOnce(Next(s, es[0]), es[1..], u, ticket);
    }
  }

  predicate Issues(e: Event, u: UserId, ticket: Hash) {
    e.ForgotPassword? && e.user == u && e.tokenHash == ticket
  }

  /** A ticket that is held after a request was held before it on the same terms, or
      has just been issued for an hour. */
  lemma TicketStep(s: State, e: Event, u: UserId, ticket: Hash)
    requires Holds(Next(s, e), u, ticket)
    ensures (Holds(s, u, ticket) && Next(s, e).users[u].reset == s.users[u].reset)
         || (Issues(e, u, ticket) && Next(s, e).users[u].reset.value.expiresAt == e.at + 3_600_000_000)
  {
    TicketFrame(s, e, u, ticket);
    if u in s.users && !(e.ForgotPassword? && e.user == u) && !(e.ResetPassword? && e.user == u) {
      OthersKeepTickets(s, e, u);
    }
  }

  /** Over a run: it is the one of the start, or some request of the run issued it. */
  lemma {:induction false} TicketOrigin(s: State, es: seq<Event>, u: UserId, ticket: Hash)
    requires Holds(Run(s, es), u, ticket)
    ensures (Holds(s, u, ticket) && Run(s, es).users[u].reset == s.users[u].reset)
         || exists n :: 0 <= n < |es| && Issues(es[n], u, ticket)
                        && Run(s, es).users[u].reset.value.expiresAt == es[n].at + 3_600_000_000
    decreases |es|
  {
    if es != [] {
      TicketOrigin(Next(s, es[0]), es[1..], u, ticket);
      if Holds(Next(s, es[0]), u, ticket) {
        TicketStep(s, es[0], u, ticket);
      }
      if n :| 0 <= n < |es[1..]| && Issues(es[1..][n], u, ticket)
              && Run(s, es).users[u].reset.value.expiresAt == es[1..][n].at + 3_600_000_000 {
        assert Issues(es[n + 1], u, ticket);
      }
    }
  }

  /** Main result: in every run a password is reset only within an hour of a request
      of the run that issued the ticket, unless it was there at the start. */
  lemma ResetWithinAnHour(s: State, es: seq<Event>, reset: Event, u: UserId, ticket: Hash)
    requires !Holds(s, u, ticket) && Resets(Run(s, es), reset, u, ticket)
    ensures exists n :: 0 <= n < |es| && Issues(es[n], u, ticket) && reset.at < es[n].at + 3_600_000_000
  {
    TicketOrigin(s, es, u, ticket);
  }
}
