/** The authentication handlers over the stored tables. The fields hold what is
    committed; a handler assigns them where the code commits, so an exception
    after one commit and before the next leaves the first one standing. */
module AuthService {
  import opened Prelude
  import opened AuthModel

  class Service {
    var users: map<UserId, Account>
    var tokens: map<Hash, TokenRecord>
    var invites: map<string, Invite>

    /** The access tokens signed so far, which are those that decode. */
    var bearers: set<Bearer>

    function Snapshot(): State
      reads this
    {
      State(users, tokens, invites, bearers)
    }

    constructor ()
      ensures Snapshot() == State(map[], map[], map[], {})
    {
      users, tokens, invites, bearers := map[], map[], map[], {};
    }

    // ---- shared by several handlers ----

    /** UPDATE refresh_tokens SET revoked_at WHERE user_id = u AND revoked_at IS NULL */
    method RevokeAllOf(u: UserId, at: Instant)
      modifies this`tokens
      ensures Snapshot() == RevokeHashes(old(Snapshot()), OwnedBy(old(Snapshot()), u), at)
    {
      tokens := map h | h in tokens ::
        if tokens[h].owner == u && tokens[h].revokedAt == None then tokens[h].(revokedAt := Some(at)) else tokens[h];
    }

    /** UPDATE refresh_tokens SET revoked_at WHERE token_hash = h AND revoked_at IS NULL */
    method RevokeOne(hash: Hash, at: Instant)
      modifies this`tokens
      ensures Snapshot() == RevokeHashes(old(Snapshot()), {hash}, at)
    {
      if hash in tokens && tokens[hash].revokedAt == None {
        tokens := tokens[hash := tokens[hash].(revokedAt := Some(at))];
      }
    }

    method SignAccessToken(u: UserId, at: Instant, life: int) returns (b: Bearer)
      modifies this`bearers
      ensures b == Bearer(u, Expiry(at, life)) && bearers == old(bearers) + {b}
    {
      b := Bearer(u, Expiry(at, life));
      bearers := bearers + {b};
    }

    method Issue(u: UserId, token: Hash, at: Instant, storeUp: bool) returns (reply: Reply)
      modifies this`tokens, this`bearers
      ensures (Snapshot(), reply) == IssueTokens(old(Snapshot()), u, token, at, storeUp)
    {
      if !storeUp {
        return Failed;   // create_session raises before the commit
      }
      if token in tokens {
        return Failed;   // the unique index refuses the row
      }
      tokens := tokens[token := TokenRecord(u, at + WEEK, None)];
      var _ := SignAccessToken(u, at, ACCESS);
      return TokensIssued;
    }

    // ---- login and second factor ----

    method Login(u: UserId, passwordOk: bool, at: Instant, lockAt: Instant, token: Hash, storeUp: bool) returns (reply: Reply)
      modifies this
      ensures (Snapshot(), reply) == Step(old(Snapshot()), Event.Login(u, passwordOk, at, lockAt, token, storeUp))
    {
      if u !in users {
        return UnknownUser;
      }
      var user := users[u];
      if user.lockedUntil.Some? && user.lockedUntil.value > at {
        return Locked;
      }
      if !passwordOk {
        user := user.(failedLogins := user.failedLogins + 1);
        if user.failedLogins >= MAX_FAILED_LOGINS {
          user := user.(lockedUntil := Some(lockAt + LOCKOUT));
        }
        users := users[u := user];
        return WrongPassword;
      }
      user := user.(failedLogins := 0);
      user := user.(lockedUntil := None);
      users := users[u := user];
      if user.mfaEnabled {
        var _ := SignAccessToken(u, at, TEMPORARY);
        return MfaRequired;
      }
      reply := Issue(u, token, at, storeUp);
    }

    method VerifyMfa(u: UserId, until: Instant, totpFor: set<string>, codeHash: Hash, at: Instant, token: Hash, storeUp: bool)
      returns (reply: Reply)
      modifies this
      ensures (Snapshot(), reply) == Step(old(Snapshot()), Event.VerifyMfa(u, until, totpFor, codeHash, at, token, storeUp))
    {
      if !Decodes(Snapshot(), Bearer(u, until), at) {
        return Rejected;
      }
      if u !in users {
        return Rejected;
      }
      var user := users[u];
      if !user.active {
        return Rejected;
      }
      if user.lockedUntil.Some? && user.lockedUntil.value > at {
        return Locked;
      }
      if user.mfaSecret == "" {
        return Rejected;
      }
      if user.mfaSecret !in totpFor {
        if codeHash in user.backupCodes {
          users := users[u := user.(backupCodes := RemoveFirst(user.backupCodes, codeHash))];
        } else {
          return Rejected;
        }
      }
      reply := Issue(u, token, at, storeUp);
    }

    method ConfirmMfa(u: UserId, until: Instant, passwordOk: bool, totpOk: bool, secret: string, codes: TenCodes, at: Instant)
      returns (reply: Reply)
      modifies this`users
      ensures (Snapshot(), reply) == Step(old(Snapshot()), Event.ConfirmMfa(u, until, passwordOk, totpOk, secret, codes, at))
    {
      if !Authenticated(Snapshot(), u, until, at) || !passwordOk {
        return Rejected;
      }
      if secret == "" || !totpOk {
        return Rejected;
      }
      var user := users[u];
      user := user.(mfaSecret := secret);
      user := user.(mfaEnabled := true);
      user := user.(backupCodes := codes);
      users := users[u := user];
      return Done;
    }

    method RegenerateCodes(u: UserId, until: Instant, codes: TenCodes, at: Instant) returns (reply: Reply)
      modifies this`users
      ensures (Snapshot(), reply) == Step(old(Snapshot()), Event.RegenerateCodes(u, until, codes, at))
    {
      if !Authenticated(Snapshot(), u, until, at) || !users[u].mfaEnabled {
        return Rejected;
      }
      users := users[u := users[u].(backupCodes := codes)];
      return Done;
    }

    method DisableMfa(u: UserId, at: Instant) returns (reply: Reply)
      modifies this`users
      ensures (Snapshot(), reply) == Step(old(Snapshot()), Event.DisableMfa(u, at))
    {
      if u !in users {
        return Rejected;
      }
      users := users[u := users[u].(mfaEnabled := false, mfaSecret := "")];
      return Done;
    }

    // ---- refresh tokens ----

    /** validate_refresh_token: the subject and hash of a token that may be
        rotated, or the reply of the request that presented it. */
    method ValidateRefreshToken(cookie: Cookie, at: Instant) returns (refusal: Option<Reply>)
      modifies this`tokens
      ensures refusal.None? ==> cookie.Presents? && TokenFound(old(Snapshot()), cookie.subject, cookie.hash)
                                && old(tokens)[cookie.hash].expiresAt >= at
                                && MayAct(old(Snapshot()), cookie.subject, at) && tokens == old(tokens)
      ensures refusal.Some? ==> forall h, up ::
        (Snapshot(), refusal.value) == Step(old(Snapshot()), Event.Refresh(cookie, at, h, up))
    {
      if !cookie.Presents? {
        return Some(Rejected);
      }
      var u, hash := cookie.subject, cookie.hash;
      if !(hash in tokens && tokens[hash].owner == u && tokens[hash].revokedAt == None) {
        RevokeAllOf(u, at);
        return Some(ReuseDetected);
      }
      if tokens[hash].expiresAt < at {
        return Some(Rejected);
      }
      if u !in users {
        return Some(Rejected);
      }
      if !users[u].active {
        return Some(Rejected);
      }
      if LockedAt(users[u], at) {
        return Some(Locked);
      }
      return None;
    }

    method Refresh(cookie: Cookie, at: Instant, token: Hash, storeUp: bool) returns (reply: Reply)
      modifies this`tokens, this`bearers
      ensures (Snapshot(), reply) == Step(old(Snapshot()), Event.Refresh(cookie, at, token, storeUp))
    {
      var refusal := ValidateRefreshToken(cookie, at);
      if refusal.Some? {
        return refusal.value;
      }
      RevokeOne(cookie.hash, at);
      reply := Issue(cookie.subject, token, at, storeUp);
    }

    method Logout(u: UserId, until: Instant, presented: Option<Hash>, at: Instant, storeUp: bool) returns (reply: Reply)
      modifies this`tokens
      ensures (Snapshot(), reply) == Step(old(Snapshot()), Event.Logout(u, until, presented, at, storeUp))
    {
      if !Authenticated(Snapshot(), u, until, at) {
        return Rejected;
      }
      if !storeUp {
        return Failed;
      }
      if presented.Some? {
        RevokeOne(presented.value, at);
      }
      return Done;
    }

    method LogoutAll(u: UserId, until: Instant, at: Instant, storeUp: bool) returns (reply: Reply)
      modifies this`tokens
      ensures (Snapshot(), reply) == Step(old(Snapshot()), Event.LogoutAll(u, until, at, storeUp))
    {
      if !Authenticated(Snapshot(), u, until, at) {
        return Rejected;
      }
      if !storeUp {
        return Failed;
      }
      RevokeAllOf(u, at);
      return Done;
    }

    method RevokeSession(u: UserId, until: Instant, sessionOwner: Option<UserId>, at: Instant, storeUp: bool) returns (reply: Reply)
      modifies this`tokens
      ensures (Snapshot(), reply) == Step(old(Snapshot()), Event.RevokeSession(u, until, sessionOwner, at, storeUp))
    {
      if !Authenticated(Snapshot(), u, until, at) {
        return Rejected;
      }
      if !storeUp {
        return Failed;
      }
      if sessionOwner.None? || sessionOwner.value != u {
        return Rejected;
      }
      RevokeAllOf(u, at);
      return Done;
    }

    // ---- password reset and administration ----

    method ForgotPassword(u: UserId, tokenHash: Hash, at: Instant) returns (reply: Reply)
      modifies this`users
      ensures (Snapshot(), reply) == Step(old(Snapshot()), Event.ForgotPassword(u, tokenHash, at))
    {
      if u in users && users[u].active {
        users := users[u := users[u].(reset := Some(ResetTicket(tokenHash, at + HOUR)))];
      }
      return Done;
    }

    method ResetPassword(u: UserId, tokenHash: Hash, at: Instant, storeUp: bool) returns (reply: Reply)
      modifies this
      ensures (Snapshot(), reply) == Step(old(Snapshot()), Event.ResetPassword(u, tokenHash, at, storeUp))
    {
      if !(u in users && users[u].reset.Some? && users[u].reset.value.tokenHash == tokenHash
           && users[u].reset.value.expiresAt > at && users[u].active) {
        return Rejected;
      }
      var user := users[u];
      user := user.(reset := None);
      user := user.(failedLogins := 0);
      user := user.(lockedUntil := None);
      users := users[u := user];
      if !storeUp {
        return Failed;   // the account is reset, the tokens are not revoked
      }
      RevokeAllOf(u, at);
      return Done;
    }

    method ForceLogout(u: UserId, at: Instant, storeUp: bool) returns (reply: Reply)
      modifies this`tokens
      ensures (Snapshot(), reply) == Step(old(Snapshot()), Event.ForceLogout(u, at, storeUp))
    {
      if u !in users {
        return Rejected;
      }
      if !storeUp {
        return Failed;
      }
      RevokeAllOf(u, at);
      return Done;
    }

    method Deactivate(u: UserId, caller: UserId, at: Instant, storeUp: bool) returns (reply: Reply)
      modifies this
      ensures (Snapshot(), reply) == Step(old(Snapshot()), Event.Deactivate(u, caller, at, storeUp))
    {
      if u !in users || u == caller {
        return Rejected;
      }
      users := users[u := users[u].(active := false)];
      if !storeUp {
        return Failed;
      }
      RevokeAllOf(u, at);
      return Done;
    }

    method Reactivate(u: UserId, at: Instant) returns (reply: Reply)
      modifies this`users
      ensures (Snapshot(), reply) == Step(old(Snapshot()), Event.Reactivate(u, at))
    {
      if u !in users {
        return Rejected;
      }
      users := users[u := users[u].(active := true, failedLogins := 0, lockedUntil := None)];
      return Done;
    }

    method UpdateUser(u: UserId, caller: UserId, changes: Changes, at: Instant) returns (reply: Reply)
      modifies this`users
      ensures (Snapshot(), reply) == Step(old(Snapshot()), Event.UpdateUser(u, caller, changes, at))
    {
      if u !in users {
        return Rejected;
      }
      if u == caller && changes.active == Some(false) {
        return Rejected;
      }
      var user := users[u];
      if changes.emailHash.Some? {
        if EmailTakenByOther(Snapshot(), changes.emailHash.value, u) {
          return Rejected;
        }
        user := user.(emailHash := changes.emailHash.value);
      }
      if changes.active.Some? {
        user := user.(active := changes.active.value);
      }
      if changes.mfaEnabled.Some? {
        user := user.(mfaEnabled := changes.mfaEnabled.value);
      }
      users := users[u := user];
      return Done;
    }

    // ---- registration and invites ----

    method Register(id: UserId, emailHash: Hash, legacyHash: Hash, at: Instant) returns (reply: Reply)
      modifies this`users
      ensures (Snapshot(), reply) == Step(old(Snapshot()), Event.Register(id, emailHash, legacyHash, at))
    {
      if EmailTaken(Snapshot(), emailHash) || EmailTaken(Snapshot(), legacyHash) {
        return Rejected;
      }
      if id in users {
        return Failed;
      }
      users := users[id := NewAccount(emailHash)];
      return Done;
    }

    method InviteUser(invite: string, emailHash: Hash, at: Instant) returns (reply: Reply)
      modifies this`invites
      ensures (Snapshot(), reply) == Step(old(Snapshot()), Event.InviteUser(invite, emailHash, at))
    {
      if EmailTaken(Snapshot(), emailHash) {
        return Rejected;
      }
      if ActiveInvite(Snapshot(), emailHash, at) {
        return Rejected;
      }
      if UnusedInvite(Snapshot(), emailHash) || invite in invites {
        return Failed;   // a unique index refuses the row
      }
      invites := invites[invite := Invite(emailHash, at + WEEK, None, None)];
      return Done;
    }

    method AcceptInvite(invite: string, id: UserId, at: Instant) returns (reply: Reply)
      modifies this`users, this`invites
      ensures (Snapshot(), reply) == Step(old(Snapshot()), Event.AcceptInvite(invite, id, at))
    {
      if !(invite in invites && invites[invite].usedAt == None && invites[invite].expiresAt > at) {
        return Rejected;
      }
      var row := invites[invite];
      if EmailTaken(Snapshot(), row.emailHash) || id in users {
        return Failed;   // the flush is refused and the transaction rolls back
      }
      users := users[id := NewAccount(row.emailHash)];
      row := row.(usedAt := Some(at));
      row := row.(usedBy := Some(id));
      invites := invites[invite := row];
      return Done;
    }
  }
}
