/** The account store behind the authentication endpoints, as a state and one
    step per handler. A step says what the handler has committed when it
    returns or raises, including the handlers that commit twice. */
module AuthModel {
  import opened Prelude

  type UserId = nat
  type Hash = string

  /** Microseconds on the server's UTC clock. */
  type Instant = int

  const SECOND: int := 1_000_000
  const MINUTE: int := 60 * SECOND
  const MAX_FAILED_LOGINS: nat := 5
  const LOCKOUT: int := 30 * MINUTE
  const WEEK: int := 7 * 24 * 60 * MINUTE
  const HOUR: int := 60 * MINUTE
  const TEMPORARY: int := 5 * MINUTE
  const ACCESS: int := 15 * MINUTE

  datatype ResetTicket = ResetTicket(tokenHash: Hash, expiresAt: Instant)

  datatype Account = Account(
    emailHash: Hash,
    active: bool,
    mfaEnabled: bool,
    mfaSecret: string,
    backupCodes: seq<Hash>,
    failedLogins: nat,
    lockedUntil: Option<Instant>,
    reset: Option<ResetTicket>)

  datatype TokenRecord = TokenRecord(owner: UserId, expiresAt: Instant, revokedAt: Option<Instant>)

  datatype Invite = Invite(emailHash: Hash, expiresAt: Instant, usedAt: Option<Instant>, usedBy: Option<UserId>)

  /** What an access token says: its subject, and when it expires. */
  datatype Bearer = Bearer(subject: UserId, until: Instant)

  /** The stored tables, and the access tokens that have been signed. Signatures
      make the latter exactly the ones that decode; no table remembers them. */
  datatype State = State(
    users: map<UserId, Account>,
    tokens: map<Hash, TokenRecord>,
    invites: map<string, Invite>,
    bearers: set<Bearer>)

  /** What the refresh cookie holds, as far as JWT decoding can tell. */
  datatype Cookie = Missing | Undecodable | JwtExpired | Presents(subject: UserId, hash: Hash)

  type TenCodes = codes: seq<Hash> | |codes| == 10 witness seq(10, _ => "")

  /** One request. Password verdicts, fresh random values, clock readings and
      whether the session store answered are parts of the request; so are
      `until`, with `user` what the presented access token says, `totpFor`, the
      secrets for which the presented code is a valid TOTP, and `lockAt`, the
      second clock reading that the login handler takes. */
  datatype Event =
    | Login(user: UserId, passwordOk: bool, at: Instant, lockAt: Instant, token: Hash, storeUp: bool)
    | VerifyMfa(user: UserId, until: Instant, totpFor: set<string>, codeHash: Hash, at: Instant, token: Hash, storeUp: bool)
    | ConfirmMfa(user: UserId, until: Instant, passwordOk: bool, totpOk: bool, secret: string, codes: TenCodes, at: Instant)
    | RegenerateCodes(user: UserId, until: Instant, codes: TenCodes, at: Instant)
    | DisableMfa(user: UserId, at: Instant)
    | Refresh(cookie: Cookie, at: Instant, token: Hash, storeUp: bool)
    | Logout(user: UserId, until: Instant, presented: Option<Hash>, at: Instant, storeUp: bool)
    | LogoutAll(user: UserId, until: Instant, at: Instant, storeUp: bool)
    | RevokeSession(user: UserId, until: Instant, sessionOwner: Option<UserId>, at: Instant, storeUp: bool)
    | ForgotPassword(user: UserId, tokenHash: Hash, at: Instant)
    | ResetPassword(user: UserId, tokenHash: Hash, at: Instant, storeUp: bool)
    | ForceLogout(user: UserId, at: Instant, storeUp: bool)
    | Deactivate(user: UserId, caller: UserId, at: Instant, storeUp: bool)
    | Reactivate(user: UserId, at: Instant)
    | UpdateUser(user: UserId, caller: UserId, changes: Changes, at: Instant)
    | Register(id: UserId, emailHash: Hash, legacyHash: Hash, at: Instant)
    | InviteUser(invite: string, emailHash: Hash, at: Instant)
    | AcceptInvite(invite: string, id: UserId, at: Instant)

  /** The fields that an administrator's PATCH sets, among those kept here. */
  datatype Changes = Changes(emailHash: Option<Hash>, active: Option<bool>, mfaEnabled: Option<bool>)

  /** `Failed` is an exception that is not an HTTP error: the session store did
      not answer, or a unique index refused the row. */
  datatype Reply =
    | UnknownUser | WrongPassword | Locked | MfaRequired | TokensIssued
    | ReuseDetected | Rejected | Failed | Done

  predicate LockedAt(a: Account, at: Instant) {
    a.lockedUntil.Some? && a.lockedUntil.value > at
  }

  /** The account may act. */
  predicate MayAct(s: State, u: UserId, at: Instant) {
    u in s.users && s.users[u].active && !LockedAt(s.users[u], at)
  }

  /** An access token lasts until a whole second. */
  function Expiry(at: Instant, life: int): Instant { (at + life) / SECOND * SECOND }

  predicate Decodes(s: State, b: Bearer, at: Instant) { b in s.bearers && b.until > at }

  /** A handler behind `get_current_user` goes on: the access token decodes, of
      whatever origin, and its account may act. */
  predicate Authenticated(s: State, u: UserId, until: Instant, at: Instant) {
    Decodes(s, Bearer(u, until), at) && MayAct(s, u, at)
  }

  predicate Live(t: TokenRecord) { t.revokedAt.None? }

  // ---- shared writes ----

  function WithAccount(s: State, u: UserId, a: Account): State {
    s.(users := s.users[u := a])
  }

  function Revoke(t: TokenRecord, at: Instant): TokenRecord {
    if Live(t) then t.(revokedAt := Some(at)) else t
  }

  /** Revokes the live records among `hashes`. */
  function RevokeHashes(s: State, hashes: set<Hash>, at: Instant): State {
    s.(tokens := map h | h in s.tokens :: if h in hashes then Revoke(s.tokens[h], at) else s.tokens[h])
  }

  function OwnedBy(s: State, u: UserId): set<Hash> {
    set h | h in s.tokens && s.tokens[h].owner == u
  }

  function LiveTokens(s: State, u: UserId): set<Hash> {
    set h | h in s.tokens && s.tokens[h].owner == u && Live(s.tokens[h])
  }

  /** A new record under the unique index on the token hash; the session is
      created before the commit, so a failure there leaves no record. */
  function IssueTokens(s: State, u: UserId, token: Hash, at: Instant, storeUp: bool): (State, Reply) {
    if storeUp && token !in s.tokens
    then (s.(tokens := s.tokens[token := TokenRecord(u, at + WEEK, None)], bearers := s.bearers + {Bearer(u, Expiry(at, ACCESS))}),
          TokensIssued)
    else (s, Failed)
  }

  // ---- one step per handler ----

  function LoginStep(s: State, e: Event): (State, Reply)
    requires e.Login?
  {
    if e.user !in s.users then (s, UnknownUser)
    else
      var a := s.users[e.user];
      if LockedAt(a, e.at) then (s, Locked)
      else if !e.passwordOk then
        var n := a.failedLogins + 1;
        var until := if n >= MAX_FAILED_LOGINS then Some(e.lockAt + LOCKOUT) else a.lockedUntil;
        (WithAccount(s, e.user, a.(failedLogins := n, lockedUntil := until)), WrongPassword)
      else
        var s' := WithAccount(s, e.user, a.(failedLogins := 0, lockedUntil := None));
        if a.mfaEnabled then (s'.(bearers := s.bearers + {Bearer(e.user, Expiry(e.at, TEMPORARY))}), MfaRequired)
        else IssueTokens(s', e.user, e.token, e.at, e.storeUp)
  }

  /** `list.remove`: everything but the first occurrence. */
  function RemoveFirst(codes: seq<Hash>, code: Hash): (rest: seq<Hash>)
    ensures code in codes ==> multiset(rest) == multiset(codes) - multiset{code}
    ensures code !in codes ==> rest == codes
  {
    if codes == [] then []
    else
      assert codes == [codes[0]] + codes[1..];
      if codes[0] == code then codes[1..] else [codes[0]] + RemoveFirst(codes[1..], code)
  }

  /** The second factor is a backup code that is still unused. */
  predicate BackupCodeAccepted(s: State, e: Event)
    requires e.VerifyMfa?
  {
    Authenticated(s, e.user, e.until, e.at) && s.users[e.user].mfaSecret != "" && s.users[e.user].mfaSecret !in e.totpFor
    && e.codeHash in s.users[e.user].backupCodes
  }

  function VerifyMfaStep(s: State, e: Event): (State, Reply)
    requires e.VerifyMfa?
  {
    if !Decodes(s, Bearer(e.user, e.until), e.at) then (s, Rejected)
    else if e.user !in s.users || !s.users[e.user].active then (s, Rejected)
    else
      var a := s.users[e.user];
      if LockedAt(a, e.at) then (s, Locked)
      else if a.mfaSecret == "" then (s, Rejected)
      else if a.mfaSecret in e.totpFor then IssueTokens(s, e.user, e.token, e.at, e.storeUp)
      else if e.codeHash in a.backupCodes then
        var s' := WithAccount(s, e.user, a.(backupCodes := RemoveFirst(a.backupCodes, e.codeHash)));
        IssueTokens(s', e.user, e.token, e.at, e.storeUp)
      else (s, Rejected)
  }

  function ConfirmMfaStep(s: State, e: Event): (State, Reply)
    requires e.ConfirmMfa?
  {
    if !Authenticated(s, e.user, e.until, e.at) || !e.passwordOk then (s, Rejected)
    else if e.secret == "" || !e.totpOk then (s, Rejected)
    else (WithAccount(s, e.user,
                      s.users[e.user].(mfaSecret := e.secret, mfaEnabled := true, backupCodes := e.codes)), Done)
  }

  function RegenerateStep(s: State, e: Event): (State, Reply)
    requires e.RegenerateCodes?
  {
    if !Authenticated(s, e.user, e.until, e.at) || !s.users[e.user].mfaEnabled then (s, Rejected)
    else (WithAccount(s, e.user, s.users[e.user].(backupCodes := e.codes)), Done)
  }

  function DisableMfaStep(s: State, e: Event): (State, Reply)
    requires e.DisableMfa?
  {
    if e.user !in s.users then (s, Rejected)
    else (WithAccount(s, e.user, s.users[e.user].(mfaEnabled := false, mfaSecret := "")), Done)
  }

  /** The presented token is a live record of its subject. */
  predicate TokenFound(s: State, u: UserId, h: Hash) {
    h in s.tokens && s.tokens[h].owner == u && Live(s.tokens[h])
  }

  /** Validation accepts the presented token, so it is rotated. */
  predicate RotationAccepted(s: State, e: Event)
    requires e.Refresh?
  {
    e.cookie.Presents? && TokenFound(s, e.cookie.subject, e.cookie.hash)
    && s.tokens[e.cookie.hash].expiresAt >= e.at
    && MayAct(s, e.cookie.subject, e.at)
  }

  /** The old record is revoked in a commit of its own, before the new pair is
      issued; a token that validation cannot find revokes the subject's family. */
  function RefreshStep(s: State, e: Event): (State, Reply)
    requires e.Refresh?
  {
    if !e.cookie.Presents? then (s, Rejected)
    else
      var u, h := e.cookie.subject, e.cookie.hash;
      if !TokenFound(s, u, h) then (RevokeHashes(s, OwnedBy(s, u), e.at), ReuseDetected)
      else if s.tokens[h].expiresAt < e.at then (s, Rejected)
      else if u !in s.users || !s.users[u].active then (s, Rejected)
      else if LockedAt(s.users[u], e.at) then (s, Locked)
      else IssueTokens(RevokeHashes(s, {h}, e.at), u, e.token, e.at, e.storeUp)
  }

  function LogoutStep(s: State, e: Event): (State, Reply)
    requires e.Logout?
  {
    if !Authenticated(s, e.user, e.until, e.at) then (s, Rejected)
    else if !e.storeUp then (s, Failed)
    else if e.presented.Some? then (RevokeHashes(s, {e.presented.value}, e.at), Done)
    else (s, Done)
  }

  function LogoutAllStep(s: State, e: Event): (State, Reply)
    requires e.LogoutAll?
  {
    if !Authenticated(s, e.user, e.until, e.at) then (s, Rejected)
    else if !e.storeUp then (s, Failed)
    else (RevokeHashes(s, OwnedBy(s, e.user), e.at), Done)
  }

  function RevokeSessionStep(s: State, e: Event): (State, Reply)
    requires e.RevokeSession?
  {
    if !Authenticated(s, e.user, e.until, e.at) then (s, Rejected)
    else if !e.storeUp then (s, Failed)
    else if e.sessionOwner != Some(e.user) then (s, Rejected)
    else (RevokeHashes(s, OwnedBy(s, e.user), e.at), Done)
  }

  function ForgotStep(s: State, e: Event): (State, Reply)
    requires e.ForgotPassword?
  {
    if e.user in s.users && s.users[e.user].active
    then (WithAccount(s, e.user, s.users[e.user].(reset := Some(ResetTicket(e.tokenHash, e.at + HOUR)))), Done)
    else (s, Done)
  }

  predicate TicketValid(s: State, e: Event)
    requires e.ResetPassword?
  {
    e.user in s.users && s.users[e.user].active && s.users[e.user].reset.Some?
    && s.users[e.user].reset.value.tokenHash == e.tokenHash
    && s.users[e.user].reset.value.expiresAt > e.at
  }

  /** The account is rewritten in a first commit; the tokens are revoked in a
      second one, after the session store has been called. */
  function ResetStep(s: State, e: Event): (State, Reply)
    requires e.ResetPassword?
  {
    if !TicketValid(s, e) then (s, Rejected)
    else
      var s' := WithAccount(s, e.user, s.users[e.user].(reset := None, failedLogins := 0, lockedUntil := None));
      if e.storeUp then (RevokeHashes(s', OwnedBy(s', e.user), e.at), Done) else (s', Failed)
  }

  /** An administrator logs another user out everywhere. */
  function ForceLogoutStep(s: State, e: Event): (State, Reply)
    requires e.ForceLogout?
  {
    if e.user !in s.users then (s, Rejected)
    else if !e.storeUp then (s, Failed)
    else (RevokeHashes(s, OwnedBy(s, e.user), e.at), Done)
  }

  /** Two commits again: the flag first, the tokens after the session store. */
  function DeactivateStep(s: State, e: Event): (State, Reply)
    requires e.Deactivate?
  {
    if e.user !in s.users || e.user == e.caller then (s, Rejected)
    else
      var s' := WithAccount(s, e.user, s.users[e.user].(active := false));
      if e.storeUp then (RevokeHashes(s', OwnedBy(s', e.user), e.at), Done) else (s', Failed)
  }

  function ReactivateStep(s: State, e: Event): (State, Reply)
    requires e.Reactivate?
  {
    if e.user !in s.users then (s, Rejected)
    else (WithAccount(s, e.user, s.users[e.user].(active := true, failedLogins := 0, lockedUntil := None)), Done)
  }

  predicate EmailTakenByOther(s: State, hash: Hash, u: UserId) {
    exists v :: v in s.users && s.users[v].emailHash == hash && v != u
  }

  function OrKeep<T>(change: Option<T>, current: T): T {
    if change.Some? then change.value else current
  }

  /** An administrator's PATCH. Unlike a deactivation it touches no token. */
  function UpdateStep(s: State, e: Event): (State, Reply)
    requires e.UpdateUser?
  {
    if e.user !in s.users || (e.user == e.caller && e.changes.active == Some(false)) then (s, Rejected)
    else if e.changes.emailHash.Some? && EmailTakenByOther(s, e.changes.emailHash.value, e.user) then (s, Rejected)
    else
      var a := s.users[e.user];
      (WithAccount(s, e.user, a.(emailHash := OrKeep(e.changes.emailHash, a.emailHash),
                                 active := OrKeep(e.changes.active, a.active),
                                 mfaEnabled := OrKeep(e.changes.mfaEnabled, a.mfaEnabled))), Done)
  }

  predicate EmailTaken(s: State, hash: Hash) {
    exists u :: u in s.users && s.users[u].emailHash == hash
  }

  function NewAccount(emailHash: Hash): Account {
    Account(emailHash, true, false, "", [], 0, None, None)
  }

  function RegisterStep(s: State, e: Event): (State, Reply)
    requires e.Register?
  {
    if EmailTaken(s, e.emailHash) || EmailTaken(s, e.legacyHash) then (s, Rejected)
    else if e.id in s.users then (s, Failed)
    else (WithAccount(s, e.id, NewAccount(e.emailHash)), Done)
  }

  /** The index on unused invites ignores expiry, unlike the handler's check. */
  predicate UnusedInvite(s: State, hash: Hash) {
    exists t :: t in s.invites && s.invites[t].emailHash == hash && s.invites[t].usedAt.None?
  }

  predicate ActiveInvite(s: State, hash: Hash, at: Instant) {
    exists t :: t in s.invites && s.invites[t].emailHash == hash && s.invites[t].usedAt.None?
                && s.invites[t].expiresAt > at
  }

  function InviteStep(s: State, e: Event): (State, Reply)
    requires e.InviteUser?
  {
    if EmailTaken(s, e.emailHash) then (s, Rejected)
    else if ActiveInvite(s, e.emailHash, e.at) then (s, Rejected)
    else if UnusedInvite(s, e.emailHash) || e.invite in s.invites then (s, Failed)
    else (s.(invites := s.invites[e.invite := Invite(e.emailHash, e.at + WEEK, None, None)]), Done)
  }

  predicate InviteOpen(s: State, invite: string, at: Instant) {
    invite in s.invites && s.invites[invite].usedAt.None? && s.invites[invite].expiresAt > at
  }

  function AcceptStep(s: State, e: Event): (State, Reply)
    requires e.AcceptInvite?
  {
    if !InviteOpen(s, e.invite, e.at) then (s, Rejected)
    else
      var i := s.invites[e.invite];
      if EmailTaken(s, i.emailHash) || e.id in s.users then (s, Failed)
      else
        (WithAccount(s, e.id, NewAccount(i.emailHash)).(
           invites := s.invites[e.invite := i.(usedAt := Some(e.at), usedBy := Some(e.id))]), Done)
  }

  function Step(s: State, e: Event): (State, Reply) {
    match e
    case Login(_, _, _, _, _, _) => LoginStep(s, e)
    case VerifyMfa(_, _, _, _, _, _, _) => VerifyMfaStep(s, e)
    case ConfirmMfa(_, _, _, _, _, _, _) => ConfirmMfaStep(s, e)
    case RegenerateCodes(_, _, _, _) => RegenerateStep(s, e)
    case DisableMfa(_, _) => DisableMfaStep(s, e)
    case Refresh(_, _, _, _) => RefreshStep(s, e)
    case Logout(_, _, _, _, _) => LogoutStep(s, e)
    case LogoutAll(_, _, _, _) => LogoutAllStep(s, e)
    case RevokeSession(_, _, _, _, _) => RevokeSessionStep(s, e)
    case ForgotPassword(_, _, _) => ForgotStep(s, e)
    case ResetPassword(_, _, _, _) => ResetStep(s, e)
    case ForceLogout(_, _, _) => ForceLogoutStep(s, e)
    case Deactivate(_, _, _, _) => DeactivateStep(s, e)
    case Reactivate(_, _) => ReactivateStep(s, e)
    case UpdateUser(_, _, _, _) => UpdateStep(s, e)
    case Register(_, _, _, _) => RegisterStep(s, e)
    case InviteUser(_, _, _) => InviteStep(s, e)
    case AcceptInvite(_, _, _) => AcceptStep(s, e)
  }

  function Next(s: State, e: Event): State { Step(s, e).0 }

  /** Requests whose only write is to the token table. */
  predicate OnlyTokens(e: Event) {
    e.Refresh? || e.Logout? || e.LogoutAll? || e.RevokeSession? || e.ForceLogout?
  }

  /** Requests that never write to the token table. */
  predicate NoTokens(e: Event) {
    e.ConfirmMfa? || e.RegenerateCodes? || e.DisableMfa? || e.ForgotPassword? || e.Reactivate?
    || e.UpdateUser? || e.Register? || e.InviteUser? || e.AcceptInvite?
  }

  /** Requests that write to the account of the user they name, and possibly tokens. */
  predicate OneAccount(e: Event) {
    e.Login? || e.VerifyMfa? || e.ConfirmMfa? || e.RegenerateCodes? || e.DisableMfa?
    || e.ForgotPassword? || e.ResetPassword? || e.Deactivate? || e.Reactivate? || e.UpdateUser?
  }

  lemma OnlyTokensFrame(s: State, e: Event)
    requires OnlyTokens(e)
    ensures Next(s, e).users == s.users && Next(s, e).invites == s.invites
  {
  }

  lemma NoTokensFrame(s: State, e: Event)
    requires NoTokens(e)
    ensures Next(s, e).tokens == s.tokens
  {
  }

  /** Between two states, at most the account of `u` is rewritten. */
  ghost predicate OnlyAccount(s: State, s': State, u: UserId) {
    && s'.invites == s.invites && s'.users.Keys == s.users.Keys
    && (forall v :: v in s.users && v != u ==> s'.users[v] == s.users[v])
  }

  /** Requests that leave every stored e-mail hash as it is. */
  predicate KeepsEmails(e: Event) { !e.UpdateUser? || e.changes.emailHash.None? }

  ghost predicate SameEmail(s: State, s': State, u: UserId) {
    u in s.users ==> u in s'.users && s'.users[u].emailHash == s.users[u].emailHash
  }

  lemma LoginFrame(s: State, e: Event)
    requires e.Login?
    ensures OnlyAccount(s, LoginStep(s, e).0, e.user) && SameEmail(s, LoginStep(s, e).0, e.user)
  {
  }

  lemma VerifyFrame(s: State, e: Event)
    requires e.VerifyMfa?
    ensures OnlyAccount(s, VerifyMfaStep(s, e).0, e.user) && SameEmail(s, VerifyMfaStep(s, e).0, e.user)
  {
  }

  lemma ResetFrame(s: State, e: Event)
    requires e.ResetPassword?
    ensures OnlyAccount(s, ResetStep(s, e).0, e.user) && SameEmail(s, ResetStep(s, e).0, e.user)
  {
  }

  lemma DeactivateFrame(s: State, e: Event)
    requires e.Deactivate?
    ensures OnlyAccount(s, DeactivateStep(s, e).0, e.user) && SameEmail(s, DeactivateStep(s, e).0, e.user)
  {
  }

  /** At most the named account is rewritten; no account appears or goes. */
  lemma OneAccountFrame(s: State, e: Event)
    requires OneAccount(e)
    ensures OnlyAccount(s, Next(s, e), e.user)
    ensures KeepsEmails(e) ==> SameEmail(s, Next(s, e), e.user)
  {
    if e.Login? {
      LoginFrame(s, e);
    } else if e.VerifyMfa? {
      VerifyFrame(s, e);
    } else if e.ResetPassword? {
      ResetFrame(s, e);
    } else if e.Deactivate? {
      DeactivateFrame(s, e);
    }
  }

  /** The three requests that add users or invites leave every account as it is. */
  lemma OthersKeepAccounts(s: State, e: Event)
    requires !OnlyTokens(e) && !OneAccount(e)
    ensures forall u :: u in s.users ==> u in Next(s, e).users && Next(s, e).users[u] == s.users[u]
  {
  }

  /** An account changes only by a request that names it. */
  lemma FrameByKind(s: State, e: Event, u: UserId)
    requires u in s.users
    ensures u in Next(s, e).users
    ensures !(OneAccount(e) && e.user == u) ==> Next(s, e).users[u] == s.users[u]
  {
    if OnlyTokens(e) {
      OnlyTokensFrame(s, e);
    } else if OneAccount(e) {
      OneAccountFrame(s, e);
    } else {
      OthersKeepAccounts(s, e);
    }
  }

  /** The state after any interleaving of requests. */
  function Run(s: State, es: seq<Event>): State
    decreases |es|
  {
    if es == [] then s else Run(Next(s, es[0]), es[1..])
  }

  /** The clock never goes back, within a request or between requests. */
  ghost predicate Clocked(es: seq<Event>, from: Instant, to: Instant) {
    if es == [] then from <= to
    else from <= es[0].at <= Finished(es[0]) && Clocked(es[1..], Finished(es[0]), to)
  }

  function Finished(e: Event): Instant {
    if e.Login? then e.lockAt else e.at
  }

  lemma {:induction false} RunConcat(s: State, es: seq<Event>, fs: seq<Event>)
    ensures Run(s, es + fs) == Run(Run(s, es), fs)
    decreases |es|
  {
    if es == [] {
      assert es + fs == fs;
    } else {
      assert (es + fs)[1..] == es[1..] + fs;
      RunConcat(Next(s, es[0]), es[1..], fs);
    }
  }
}
