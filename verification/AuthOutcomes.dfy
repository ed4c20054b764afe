/** What each request answers and writes, in terms of the tables alone: the times
    are written out, and no predicate of the handlers is used. */
module AuthOutcomes {
  import opened Prelude
  import opened AuthModel

  // ---- the words of these statements ----

  ghost predicate LockRuns(a: Account, at: Instant) { exists t :: a.lockedUntil == Some(t) && t > at }

  /** The access token is one that was signed and has not expired. */
  ghost predicate Holds(s: State, u: UserId, until: Instant, at: Instant) {
    Bearer(u, until) in s.bearers && at < until
  }

  /** Behind it stands an account that is active and not locked. */
  ghost predicate Acts(s: State, u: UserId, until: Instant, at: Instant) {
    Holds(s, u, until, at) && u in s.users && s.users[u].active && !LockRuns(s.users[u], at)
  }

  ghost predicate LiveToken(s: State, h: Hash, u: UserId) {
    h in s.tokens && s.tokens[h].owner == u && s.tokens[h].revokedAt == None
  }

  /** A pair was issued: one record for seven days, and one access token that ends
      within the last of fifteen minutes' seconds. */
  ghost predicate PairAdded(s: State, s': State, u: UserId, token: Hash, at: Instant) {
    && token !in s.tokens
    && s'.tokens == s.tokens[token := TokenRecord(u, at + 604_800_000_000, None)]
    && AccessAdded(s, s', u, at + 900_000_000)
  }

  /** One access token was signed, rounded down to the second. */
  ghost predicate AccessAdded(s: State, s': State, u: UserId, ends: Instant) {
    exists until ::
      ends - 1_000_000 < until <= ends && until % 1_000_000 == 0 && s'.bearers == s.bearers + {Bearer(u, until)}
  }

  ghost predicate NothingIssued(s: State, s': State) { s'.tokens == s.tokens && s'.bearers == s.bearers }

  /** The live tokens of one user were stamped with the time, and nothing else. */
  ghost predicate AllRevoked(s: State, s': State, u: UserId, at: Instant) {
    && s'.tokens.Keys == s.tokens.Keys
    && forall h :: h in s.tokens ==>
         s'.tokens[h] == if LiveToken(s, h, u) then TokenRecord(u, s.tokens[h].expiresAt, Some(at)) else s.tokens[h]
  }

  ghost predicate OneRevoked(s: State, s': State, hash: Hash, at: Instant) {
    && s'.tokens.Keys == s.tokens.Keys
    && forall h :: h in s.tokens ==>
         s'.tokens[h] == if h == hash && s.tokens[h].revokedAt == None
                         then TokenRecord(s.tokens[h].owner, s.tokens[h].expiresAt, Some(at)) else s.tokens[h]
  }

  // ---- signing in ----

  lemma ExpiryRounds(at: Instant, life: int)
    ensures at + life - 1_000_000 < Expiry(at, life) <= at + life && Expiry(at, life) % 1_000_000 == 0
  {
  }

  /** A login issues tokens for a known, unlocked account without a second factor and
      with the right password, if they can be stored; with the factor it hands out an
      access token for five minutes; a wrong password is only counted. */
  lemma LoginOutcome(s: State, e: Event)
    requires e.Login?
    ensures var u, known, reply := e.user, e.user in s.users, Step(s, e).1;
      && (reply == UnknownUser <==> !known)
      && (reply == Locked <==> known && LockRuns(s.users[u], e.at))
      && (reply == WrongPassword <==> known && !LockRuns(s.users[u], e.at) && !e.passwordOk)
      && (reply == MfaRequired <==> known && !LockRuns(s.users[u], e.at) && e.passwordOk && s.users[u].mfaEnabled)
      && (reply == TokensIssued <==> known && !LockRuns(s.users[u], e.at) && e.passwordOk && !s.users[u].mfaEnabled
                                     && e.storeUp && e.token !in s.tokens)
    ensures var s', reply := Next(s, e), Step(s, e).1;
      && (reply == TokensIssued ==> PairAdded(s, s', e.user, e.token, e.at))
      && (reply == MfaRequired ==> s'.tokens == s.tokens && AccessAdded(s, s', e.user, e.at + 300_000_000))
      && (reply != TokensIssued && reply != MfaRequired ==> NothingIssued(s, s'))
  {
    ExpiryRounds(e.at, ACCESS);
    ExpiryRounds(e.at, TEMPORARY);
  }

  /** What a login does to the account: the fifth failure locks it for thirty minutes,
      and a right password clears both fields. */
  lemma LoginAccount(s: State, e: Event)
    requires e.Login? && e.user in s.users
    ensures var a, reply := s.users[e.user], Step(s, e).1;
      && e.user in Next(s, e).users
      && (reply == WrongPassword ==>
            Next(s, e).users[e.user] ==
            a.(failedLogins := a.failedLogins + 1,
               lockedUntil := if a.failedLogins >= 4 then Some(e.lockAt + 1_800_000_000) else a.lockedUntil))
      && (reply == MfaRequired || reply == TokensIssued || reply == Failed ==>
            Next(s, e).users[e.user] == a.(failedLogins := 0, lockedUntil := None))
      && (reply == Locked ==> Next(s, e) == s)
  {
  }

  /** The second step issues tokens for an account that may act behind its access
      token, with a stored secret and a TOTP for it or a stored code, if they can be
      stored; the code is gone in either case, and nothing else of the account. */
  lemma VerifyOutcome(s: State, e: Event)
    requires e.VerifyMfa?
    ensures var u, s', reply := e.user, Next(s, e), Step(s, e).1;
      var accepted := Acts(s, u, e.until, e.at) && s.users[u].mfaSecret != ""
                      && (s.users[u].mfaSecret in e.totpFor || e.codeHash in s.users[u].backupCodes);
      && (reply == TokensIssued <==> accepted && e.storeUp && e.token !in s.tokens)
      && (reply == Failed <==> accepted && !(e.storeUp && e.token !in s.tokens))
      && (reply == Locked <==> Holds(s, u, e.until, e.at) && u in s.users && s.users[u].active && LockRuns(s.users[u], e.at))
      && (reply == TokensIssued ==> PairAdded(s, s', u, e.token, e.at))
      && (reply != TokensIssued ==> NothingIssued(s, s'))
      && (accepted && s.users[u].mfaSecret !in e.totpFor ==>
            u in s'.users && multiset(s'.users[u].backupCodes) == multiset(s.users[u].backupCodes) - multiset{e.codeHash}
            && s'.users[u] == s.users[u].(backupCodes := s'.users[u].backupCodes))
      && (!accepted || s.users[u].mfaSecret in e.totpFor ==> s'.users == s.users)
  {
    ExpiryRounds(e.at, ACCESS);
  }

  /** A rotation needs a live, unexpired token presented by its owner, whose account
      may act. It is revoked and, if the new pair can be stored, replaced; a token
      that is not found live revokes every live token of the presented subject. */
  lemma RefreshOutcome(s: State, e: Event)
    requires e.Refresh? && e.cookie.Presents?
    ensures var u, h, s', reply := e.cookie.subject, e.cookie.hash, Next(s, e), Step(s, e).1;
      var found := LiveToken(s, h, u);
      var valid := found && e.at <= s.tokens[h].expiresAt && u in s.users && s.users[u].active;
      && (reply == ReuseDetected <==> !found)
      && (reply == Locked <==> valid && LockRuns(s.users[u], e.at))
      && (reply == TokensIssued <==> valid && !LockRuns(s.users[u], e.at) && e.storeUp && e.token !in s.tokens)
      && (reply == Failed <==> valid && !LockRuns(s.users[u], e.at) && !(e.storeUp && e.token !in s.tokens))
      && (reply == ReuseDetected ==> AllRevoked(s, s', u, e.at) && s'.bearers == s.bearers)
      && (reply == Locked || reply == Rejected ==> NothingIssued(s, s'))
  {
  }

  /** The presented token was revoked first, and the pair issued, if it was, after. */
  ghost predicate Rotated(s: State, mid: State, s': State, e: Event, reply: Reply)
    requires e.Refresh? && e.cookie.Presents?
  {
    && OneRevoked(s, mid, e.cookie.hash, e.at) && mid.bearers == s.bearers
    && if reply == TokensIssued then PairAdded(mid, s', e.cookie.subject, e.token, e.at) else NothingIssued(mid, s')
  }

  lemma RotationOutcome(s: State, e: Event)
    requires e.Refresh? && e.cookie.Presents? && (Step(s, e).1 == TokensIssued || Step(s, e).1 == Failed)
    ensures exists mid :: Rotated(s, mid, Next(s, e), e, Step(s, e).1)
  {
    ExpiryRounds(e.at, ACCESS);
    assert Rotated(s, RevokeHashes(s, {e.cookie.hash}, e.at), Next(s, e), e, Step(s, e).1);
  }

  /** Without a cookie that decodes nothing happens. */
  lemma UndecodedOutcome(s: State, e: Event)
    requires e.Refresh? && !e.cookie.Presents?
    ensures Step(s, e) == (s, Rejected)
  {
  }

  // ---- ending sessions ----

  /** Each request that ends sessions succeeds on its own condition, revokes then what
      it should, and otherwise writes no token. */
  lemma LogoutOutcome(s: State, e: Event)
    requires e.Logout?
    ensures var s', acts := Next(s, e), Acts(s, e.user, e.until, e.at);
      && (Step(s, e).1 == Done <==> acts && e.storeUp)
      && (Step(s, e).1 == Failed <==> acts && !e.storeUp)
      && (if acts && e.storeUp && e.presented.Some? then OneRevoked(s, s', e.presented.value, e.at) else s'.tokens == s.tokens)
  {
  }

  lemma LogoutAllOutcome(s: State, e: Event)
    requires e.LogoutAll?
    ensures var acts := Acts(s, e.user, e.until, e.at);
      && (Step(s, e).1 == Done <==> acts && e.storeUp)
      && (Step(s, e).1 == Failed <==> acts && !e.storeUp)
      && (if acts && e.storeUp then AllRevoked(s, Next(s, e), e.user, e.at) else Next(s, e) == s)
  {
  }

  lemma RevokeSessionOutcome(s: State, e: Event)
    requires e.RevokeSession?
    ensures var acts := Acts(s, e.user, e.until, e.at);
      && (Step(s, e).1 == Done <==> acts && e.storeUp && e.sessionOwner == Some(e.user))
      && (Step(s, e).1 == Failed <==> acts && !e.storeUp)
      && (if acts && e.storeUp && e.sessionOwner == Some(e.user) then AllRevoked(s, Next(s, e), e.user, e.at) else Next(s, e) == s)
  {
  }

  lemma ForceLogoutOutcome(s: State, e: Event)
    requires e.ForceLogout?
    ensures Step(s, e).1 == Done <==> e.user in s.users && e.storeUp
    ensures Step(s, e).1 == Failed <==> e.user in s.users && !e.storeUp
    ensures if e.user in s.users && e.storeUp then AllRevoked(s, Next(s, e), e.user, e.at) else Next(s, e) == s
  {
  }

  // ---- accounts ----

  /** A ticket for an hour, for an active account only; the answer tells nothing. */
  lemma ForgotOutcome(s: State, e: Event)
    requires e.ForgotPassword?
    ensures Step(s, e).1 == Done && NothingIssued(s, Next(s, e))
    ensures e.user in s.users && s.users[e.user].active ==>
      Next(s, e).users == s.users[e.user := s.users[e.user].(reset := Some(ResetTicket(e.tokenHash, e.at + 3_600_000_000)))]
    ensures !(e.user in s.users && s.users[e.user].active) ==> Next(s, e) == s
  {
  }

  /** A reset needs the account's own ticket, before its expiry. It is used up and the
      lock forgiven even when the sessions cannot be ended. */
  lemma ResetOutcome(s: State, e: Event)
    requires e.ResetPassword?
    ensures var a, s', reply := if e.user in s.users then s.users[e.user] else NoAccount(), Next(s, e), Step(s, e).1;
      var valid := e.user in s.users && a.active && exists t :: a.reset == Some(ResetTicket(e.tokenHash, t)) && e.at < t;
      && (reply == Done <==> valid && e.storeUp)
      && (reply == Failed <==> valid && !e.storeUp)
      && (valid ==> s'.users == s.users[e.user := a.(reset := None, failedLogins := 0, lockedUntil := None)])
      && (if valid && e.storeUp then AllRevoked(s, s', e.user, e.at) else s'.tokens == s.tokens)
      && (!valid ==> s' == s)
  {
    if e.user in s.users && s.users[e.user].reset.Some? {
      var ticket := s.users[e.user].reset.value;
      assert s.users[e.user].reset == Some(ResetTicket(ticket.tokenHash, ticket.expiresAt));
    }
  }

  function NoAccount(): Account { Account("", false, false, "", [], 0, None, None) }

  lemma DeactivateOutcome(s: State, e: Event)
    requires e.Deactivate?
    ensures var ok := e.user in s.users && e.user != e.caller;
      && (Step(s, e).1 == Done <==> ok && e.storeUp)
      && (Step(s, e).1 == Failed <==> ok && !e.storeUp)
      && (ok ==> Next(s, e).users == s.users[e.user := s.users[e.user].(active := false)])
      && (if ok && e.storeUp then AllRevoked(s, Next(s, e), e.user, e.at) else Next(s, e).tokens == s.tokens)
      && (!ok ==> Next(s, e) == s)
  {
  }

  lemma ReactivateOutcome(s: State, e: Event)
    requires e.Reactivate?
    ensures Step(s, e).1 == Done <==> e.user in s.users
    ensures e.user in s.users ==>
      Next(s, e) == s.(users := s.users[e.user := s.users[e.user].(active := true, failedLogins := 0, lockedUntil := None)])
    ensures e.user !in s.users ==> Next(s, e) == s
  {
  }

  lemma UpdateOutcome(s: State, e: Event)
    requires e.UpdateUser?
    ensures var c, s' := e.changes, Next(s, e);
      var ok := e.user in s.users && !(e.user == e.caller && c.active == Some(false))
                && !(exists v :: v in s.users && v != e.user && c.emailHash == Some(s.users[v].emailHash));
      && (Step(s, e).1 == Done <==> ok)
      && (!ok ==> s' == s)
      && (ok ==> NothingIssued(s, s') && s'.invites == s.invites && e.user in s'.users
                 && s'.users == s.users[e.user := s'.users[e.user]])
      && (ok ==> var a, a' := s.users[e.user], s'.users[e.user];
                 (if c.emailHash.None? then a'.emailHash == a.emailHash else c.emailHash == Some(a'.emailHash))
                 && (if c.active.None? then a'.active == a.active else c.active == Some(a'.active))
                 && (if c.mfaEnabled.None? then a'.mfaEnabled == a.mfaEnabled else c.mfaEnabled == Some(a'.mfaEnabled))
                 && a' == a.(emailHash := a'.emailHash, active := a'.active, mfaEnabled := a'.mfaEnabled))
  {
  }

  // ---- the second factor's own requests ----

  lemma ConfirmOutcome(s: State, e: Event)
    requires e.ConfirmMfa?
    ensures var ok := Acts(s, e.user, e.until, e.at) && e.passwordOk && e.totpOk && e.secret != "";
      && (Step(s, e).1 == Done <==> ok)
      && (ok ==> Next(s, e) == s.(users := s.users[e.user :=
                   s.users[e.user].(mfaSecret := e.secret, mfaEnabled := true, backupCodes := e.codes)]))
      && (!ok ==> Next(s, e) == s)
  {
  }

  lemma RegenerateOutcome(s: State, e: Event)
    requires e.RegenerateCodes?
    ensures var ok := Acts(s, e.user, e.until, e.at) && s.users[e.user].mfaEnabled;
      && (Step(s, e).1 == Done <==> ok)
      && (ok ==> Next(s, e) == s.(users := s.users[e.user := s.users[e.user].(backupCodes := e.codes)]))
      && (!ok ==> Next(s, e) == s)
  {
  }

  lemma DisableOutcome(s: State, e: Event)
    requires e.DisableMfa?
    ensures Step(s, e).1 == Done <==> e.user in s.users
    ensures e.user in s.users ==>
      Next(s, e) == s.(users := s.users[e.user := s.users[e.user].(mfaSecret := "", mfaEnabled := false)])
    ensures e.user !in s.users ==> Next(s, e) == s
  {
  }

  // ---- newcomers ----

  /** A new account: active, unlocked, without a factor or a ticket. */
  ghost predicate Joined(s: State, s': State, id: UserId, emailHash: Hash) {
    id !in s.users && s'.users == s.users[id := Account(emailHash, true, false, "", [], 0, None, None)] && NothingIssued(s, s')
  }

  ghost predicate HasAddress(s: State, hash: Hash) { exists u :: u in s.users && s.users[u].emailHash == hash }

  lemma RegisterOutcome(s: State, e: Event)
    requires e.Register?
    ensures var ok := !HasAddress(s, e.emailHash) && !HasAddress(s, e.legacyHash) && e.id !in s.users;
      && (Step(s, e).1 == Done <==> ok)
      && (ok ==> Joined(s, Next(s, e), e.id, e.emailHash) && Next(s, e).invites == s.invites)
      && (!ok ==> Next(s, e) == s)
  {
  }

  lemma InviteOutcome(s: State, e: Event)
    requires e.InviteUser?
    ensures var waiting := exists i :: i in s.invites && s.invites[i].emailHash == e.emailHash && s.invites[i].usedAt == None;
      var ok := !HasAddress(s, e.emailHash) && !waiting && e.invite !in s.invites;
      && (Step(s, e).1 == Done <==> ok)
      && (ok ==> Next(s, e) == s.(invites := s.invites[e.invite := Invite(e.emailHash, e.at + 604_800_000_000, None, None)]))
      && (!ok ==> Next(s, e) == s)
  {
  }

  lemma AcceptOutcome(s: State, e: Event)
    requires e.AcceptInvite?
    ensures var open := e.invite in s.invites && s.invites[e.invite].usedAt == None && e.at < s.invites[e.invite].expiresAt;
      var ok := open && !HasAddress(s, s.invites[e.invite].emailHash) && e.id !in s.users;
      && (Step(s, e).1 == Done <==> ok)
      && (ok ==> Joined(s, Next(s, e), e.id, s.invites[e.invite].emailHash)
                 && Next(s, e).invites == s.invites[e.invite := s.invites[e.invite].(usedAt := Some(e.at), usedBy := Some(e.id))])
      && (!ok ==> Next(s, e) == s)
  {
  }

  // ---- every run: no access without the password ----

  /** The user has no token and no access token. */
  ghost predicate Outside(s: State, u: UserId) {
    (forall h :: h in s.tokens ==> s.tokens[h].owner != u) && (forall b :: b in s.bearers ==> b.subject != u)
  }

  /** A login of the user with the right password, on an account that is not locked. */
  ghost predicate KnowsPassword(s: State, e: Event, u: UserId) {
    e.Login? && e.user == u && e.passwordOk && u in s.users && !LockRuns(s.users[u], e.at)
  }

  /** One request lets an outsider in only as a login with the right password. */
  lemma EntersByPassword(s: State, e: Event, u: UserId)
    requires Outside(s, u)
    ensures Outside(Next(s, e), u) || KnowsPassword(s, e, u)
  {
    if e.Login? {
      LoginOutcome(s, e);
    } else if e.VerifyMfa? {
      VerifyOutcome(s, e);
    } else if e.Refresh? {
      OutsiderRefresh(s, e, u);
    } else {
      OthersIssueNothing(s, e, u);
    }
  }

  lemma OutsiderRefresh(s: State, e: Event, u: UserId)
    requires e.Refresh? && Outside(s, u)
    ensures Outside(Next(s, e), u)
  {
    if !e.cookie.Presents? {
      UndecodedOutcome(s, e);
    } else {
      RefreshOutcome(s, e);
    }
  }

  lemma OthersIssueNothing(s: State, e: Event, u: UserId)
    requires !e.Login? && !e.VerifyMfa? && !e.Refresh? && Outside(s, u)
    ensures Outside(Next(s, e), u)
  {
  }

  /** Main result: in every run a user who starts without any token holds one only
      after a login with the right password. */
  lemma {:induction false} AccessNeedsPassword(s: State, es: seq<Event>, u: UserId)
    requires Outside(s, u) && !Outside(Run(s, es), u)
    ensures exists n :: 0 <= n < |es| && KnowsPassword(Run(s, es[..n]), es[n], u)
    decreases |es|
  {
    if es == [] {
      assert false;
    } else if KnowsPassword(s, es[0], u) {
      assert es[..0] == [] && Run(s, es[..0]) == s;
    } else {
      EntersByPassword(s, es[0], u);
      AccessNeedsPassword(Next(s, es[0]), es[1..], u);
      var n :| 0 <= n < |es[1..]| && KnowsPassword(Run(Next(s, es[0]), es[1..][..n]), es[1..][n], u);
      assert es[..n + 1][1..] == es[1..][..n];
      assert KnowsPassword(Run(s, es[..n + 1]), es[n + 1], u);
    }
  }

  /** In every run each login that hands anything out had the right password. */
  lemma LoginsThatAdmit(s: State, es: seq<Event>, n: nat)
    requires n < |es| && es[n].Login? && Step(Run(s, es[..n]), es[n]).1 in {TokensIssued, MfaRequired}
    ensures KnowsPassword(Run(s, es[..n]), es[n], es[n].user)
  {
    LoginOutcome(Run(s, es[..n]), es[n]);
  }
}
