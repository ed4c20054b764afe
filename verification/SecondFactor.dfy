/** The second factor over whole runs: backup codes are conserved; a sign-in
    presents something that the account held at the start of a run as long as
    nothing is replaced on the way; and a login alone is enough to replace it. */
module SecondFactor {
  import opened Prelude
  import opened AuthModel

  // ---- backup codes ----

  /** The backup code that a request uses up for `u`, if any. */
  function Accepted(s: State, e: Event, u: UserId): multiset<Hash> {
    if e.VerifyMfa? && e.user == u && BackupCodeAccepted(s, e) then multiset{e.codeHash} else multiset{}
  }

  predicate Generates(s: State, e: Event, u: UserId) {
    (e.ConfirmMfa? || e.RegenerateCodes?) && e.user == u && Step(s, e).1.Done?
  }

  function Codes(s: State, u: UserId): multiset<Hash>
    requires u in s.users
  {
    multiset(s.users[u].backupCodes)
  }

  /** The stored list itself: replaced by a generation, shortened by an accepted
      code, and otherwise the same list. */
  lemma StoredCodes(s: State, e: Event, u: UserId)
    requires u in s.users
    ensures u in Next(s, e).users
    ensures var codes, codes' := s.users[u].backupCodes, Next(s, e).users[u].backupCodes;
      if Generates(s, e, u) then codes' == e.codes
      else if e.VerifyMfa? && e.user == u && BackupCodeAccepted(s, e) then codes' == RemoveFirst(codes, e.codeHash)
      else codes' == codes
  {
    FrameByKind(s, e, u);
  }

  /** Only a generation and an accepted code write the stored codes of `u`; an
      accepted code loses exactly one occurrence, even when the token pair that
      should follow cannot be issued. */
  lemma CodesAfter(s: State, e: Event, u: UserId)
    requires u in s.users
    ensures u in Next(s, e).users
    ensures Accepted(s, e, u) <= Codes(s, u)
    ensures Codes(Next(s, e), u) == if Generates(s, e, u) then multiset(e.codes) else Codes(s, u) - Accepted(s, e, u)
    ensures Generates(s, e, u) ==> |Next(s, e).users[u].backupCodes| == 10
  {
    StoredCodes(s, e, u);
  }

  function AllAccepted(s: State, es: seq<Event>, u: UserId): multiset<Hash>
    decreases |es|
  {
    if es == [] then multiset{} else Accepted(s, es[0], u) + AllAccepted(Next(s, es[0]), es[1..], u)
  }

  ghost predicate NeverGenerates(s: State, es: seq<Event>, u: UserId)
    decreases |es|
  {
    es == [] || (!Generates(s, es[0], u) && NeverGenerates(Next(s, es[0]), es[1..], u))
  }

  lemma MovedOver(one: multiset<Hash>, rest: multiset<Hash>, before: multiset<Hash>, after: multiset<Hash>, end: multiset<Hash>)
    requires one <= before && after == before - one && rest + end == after
    ensures one + rest + end == before
  {
  }

  /** Main result: between two generations, accepted codes and remaining codes
      together are the codes there were at the start, occurrence by occurrence. */
  lemma {:induction false} CodesConserved(s: State, es: seq<Event>, u: UserId)
    requires u in s.users && NeverGenerates(s, es, u)
    ensures u in Run(s, es).users
    ensures AllAccepted(s, es, u) + Codes(Run(s, es), u) == Codes(s, u)
    decreases |es|
  {
    if es != [] {
      var s' := Next(s, es[0]);
      CodesAfter(s, es[0], u);
      CodesConserved(s', es[1..], u);
      MovedOver(Accepted(s, es[0], u), AllAccepted(s', es[1..], u), Codes(s, u), Codes(s', u), Codes(Run(s', es[1..]), u));
    }
  }

  /** From a generation on, accepted plus remaining is ten, and a code that was
      generated once is accepted at most once. */
  lemma TenCodesInAll(s: State, e: Event, es: seq<Event>, u: UserId)
    requires u in s.users && Generates(s, e, u) && NeverGenerates(Next(s, e), es, u)
    ensures u in Next(s, e).users && u in Run(Next(s, e), es).users
    ensures |AllAccepted(Next(s, e), es, u)| + |Run(Next(s, e), es).users[u].backupCodes| == 10
    ensures forall h :: AllAccepted(Next(s, e), es, u)[h] <= multiset(e.codes)[h]
  {
    CodesAfter(s, e, u);
    CodesConserved(Next(s, e), es, u);
    var accepted, left := AllAccepted(Next(s, e), es, u), Codes(Run(Next(s, e), es), u);
    assert |accepted + left| == |accepted| + |left|;
  }

  // ---- where access tokens come from ----

  /** The access token that a request hands out: the temporary one of a login that
      still needs its second factor, or the one of a token pair. */
  function HandsOut(s: State, e: Event): set<Bearer> {
    if e.Login? && Step(s, e).1.MfaRequired? then {Bearer(e.user, Expiry(e.at, TEMPORARY))}
    else if !Step(s, e).1.TokensIssued? then {}
    else match e
      case Login(u, _, _, _, _, _) => {Bearer(u, Expiry(e.at, ACCESS))}
      case VerifyMfa(u, _, _, _, _, _, _) => {Bearer(u, Expiry(e.at, ACCESS))}
      case Refresh(Presents(u, _), _, _, _) => {Bearer(u, Expiry(e.at, ACCESS))}
      case _ => {}
  }

  lemma BearersAfter(s: State, e: Event)
    ensures Next(s, e).bearers == s.bearers + HandsOut(s, e)
  {
  }

  /** A login with the right password, a second step, or a rotation, for `u`. */
  predicate Admits(s: State, e: Event, u: UserId) {
    exists b :: b in HandsOut(s, e) && b.subject == u
  }

  function Admissions(s: State, es: seq<Event>, u: UserId): nat
    decreases |es|
  {
    if es == [] then 0
    else (if Admits(s, es[0], u) then 1 else 0) + Admissions(Next(s, es[0]), es[1..], u)
  }

  /** Access tokens are not forged and not revoked: over any run those of `u` are
      the ones it started with until some request hands out another. */
  lemma {:induction false} BearersComeFromAdmissions(s: State, es: seq<Event>, u: UserId)
    ensures s.bearers <= Run(s, es).bearers
    ensures Admissions(s, es, u) == 0 ==>
      forall b :: b in Run(s, es).bearers && b.subject == u ==> b in s.bearers
    decreases |es|
  {
    if es != [] {
      BearersAfter(s, es[0]);
      BearersComeFromAdmissions(Next(s, es[0]), es[1..], u);
    }
  }

  // ---- multi-factor sign-in ----

  /** The request takes the second factor away. */
  predicate TurnsOff(e: Event, u: UserId) {
    (e.DisableMfa? && e.user == u) || (e.UpdateUser? && e.user == u && e.changes.mfaEnabled == Some(false))
  }

  /** No request by anyone moves the second factor of `u` except its confirmation,
      its removal and an administrator's PATCH, and only the first brings a secret. */
  lemma FactorFrame(s: State, e: Event, u: UserId)
    requires u in s.users
    ensures u in Next(s, e).users
    ensures var a, a' := s.users[u], Next(s, e).users[u];
      if e.ConfirmMfa? && e.user == u && Step(s, e).1.Done? then
        a'.mfaEnabled && a'.mfaSecret == e.secret != "" && e.passwordOk && e.totpOk && Authenticated(s, u, e.until, e.at)
      else if e.DisableMfa? && e.user == u then !a'.mfaEnabled && a'.mfaSecret == ""
      else if e.UpdateUser? && e.user == u && Step(s, e).1.Done? then
        a'.mfaEnabled == OrKeep(e.changes.mfaEnabled, a.mfaEnabled) && a'.mfaSecret == a.mfaSecret
      else a'.mfaEnabled == a.mfaEnabled && a'.mfaSecret == a.mfaSecret
  {
    FrameByKind(s, e, u);
  }

  /** The request signs `u` in. */
  predicate SignsIn(s: State, e: Event, u: UserId) {
    (e.Login? || e.VerifyMfa?) && e.user == u && Step(s, e).1.TokensIssued?
  }

  /** The request presents a second factor that the account `held` has: a TOTP for
      its secret, or one of its backup codes. */
  predicate Presents(e: Event, held: Account) {
    e.VerifyMfa? && (held.mfaSecret in e.totpFor || e.codeHash in held.backupCodes)
  }

  /** A sign-in of an account that needs a second factor is a second step: behind
      an access token of that account it presents a TOTP for the stored secret, or
      uses up a stored backup code. */
  lemma SignInPresentsFactor(s: State, e: Event, u: UserId)
    requires u in s.users && s.users[u].mfaEnabled && SignsIn(s, e, u)
    ensures e.VerifyMfa? && Bearer(u, e.until) in s.bearers && Presents(e, s.users[u])
    ensures s.users[u].mfaSecret !in e.totpFor ==>
      Accepted(s, e, u) == multiset{e.codeHash} && |Codes(Next(s, e), u)| == |Codes(s, u)| - 1
  {
    CodesAfter(s, e, u);
  }

  /** A second step needs a first: from a state without an access token of `u`, no
      run signs an account in that needs a second factor before some login with the
      right password, or a rotation, has handed one out. */
  lemma SecondStepNeedsFirst(s: State, es: seq<Event>, e: Event, u: UserId)
    requires forall b :: b in s.bearers ==> b.subject != u
    requires u in Run(s, es).users && Run(s, es).users[u].mfaEnabled && SignsIn(Run(s, es), e, u)
    ensures Admissions(s, es, u) > 0
  {
    BearersComeFromAdmissions(s, es, u);
    SignInPresentsFactor(Run(s, es), e, u);
  }

  ghost predicate NeverTurnedOff(es: seq<Event>, u: UserId) {
    forall i :: 0 <= i < |es| ==> !TurnsOff(es[i], u)
  }

  lemma {:induction false} FactorStays(s: State, es: seq<Event>, u: UserId)
    requires u in s.users && s.users[u].mfaEnabled && NeverTurnedOff(es, u)
    ensures u in Run(s, es).users && Run(s, es).users[u].mfaEnabled
    ensures NeverGenerates(s, es, u) ==> Run(s, es).users[u].mfaSecret == s.users[u].mfaSecret
    decreases |es|
  {
    if es != [] {
      FactorFrame(s, es[0], u);
      FactorStays(Next(s, es[0]), es[1..], u);
    }
  }

  lemma AllAcceptedFirst(s: State, e: Event, rest: seq<Event>, u: UserId)
    ensures AllAccepted(s, [e] + rest, u) == Accepted(s, e, u) + AllAccepted(Next(s, e), rest, u)
    ensures Run(s, [e] + rest) == Run(Next(s, e), rest)
  {
    assert ([e] + rest)[1..] == rest;
  }

  lemma Reassociated(a: multiset<Hash>, b: multiset<Hash>, c: multiset<Hash>)
    ensures a + (b + c) == (a + b) + c
  {
  }

  lemma {:induction false} AllAcceptedAppend(s: State, es: seq<Event>, e: Event, u: UserId)
    ensures AllAccepted(s, es + [e], u) == AllAccepted(s, es, u) + Accepted(Run(s, es), e, u)
    decreases |es|
  {
    if es == [] {
      AllAcceptedFirst(s, e, [], u);
      assert es + [e] == [e] + [];
    } else {
      var first, rest := es[0], es[1..];
      assert es == [first] + rest && es + [e] == [first] + (rest + [e]);
      AllAcceptedAppend(Next(s, first), rest, e, u);
      AllAcceptedFirst(s, first, rest, u);
      AllAcceptedFirst(s, first, rest + [e], u);
      Reassociated(Accepted(s, first, u), AllAccepted(Next(s, first), rest, u), Accepted(Run(s, es), e, u));
    }
  }

  /** Main result: as long as nobody turns the factor off, confirms another one or
      generates new codes, every sign-in in every run presents a TOTP for the
      secret of the start, or uses up an occurrence of a code stored at the start,
      and all codes used up so far are codes of the start, occurrence by occurrence. */
  lemma SecondFactorHolds(s: State, es: seq<Event>, e: Event, u: UserId)
    requires u in s.users && s.users[u].mfaEnabled && NeverTurnedOff(es, u) && NeverGenerates(s, es, u)
    requires SignsIn(Run(s, es), e, u)
    ensures e.VerifyMfa? && Presents(e, s.users[u])
    ensures s.users[u].mfaSecret !in e.totpFor ==>
      AllAccepted(s, es + [e], u) == AllAccepted(s, es, u) + multiset{e.codeHash}
    ensures AllAccepted(s, es + [e], u) <= Codes(s, u)
  {
    var t := Run(s, es);
    FactorStays(s, es, u);
    CodesConserved(s, es, u);
    SignInPresentsFactor(t, e, u);
    CodesAfter(t, e, u);
    AllAcceptedAppend(s, es, e, u);
    if t.users[u].mfaSecret !in e.totpFor {
      assert e.codeHash in Codes(t, u) && e.codeHash in Codes(s, u);
    }
  }

  // ---- exactly when a sign-in needs nothing held before ----

  /** What `now` has and `held` did not. */
  ghost predicate NewFactor(held: Account, now: Account) {
    now.mfaSecret != held.mfaSecret || exists c :: c in now.backupCodes && c !in held.backupCodes
  }

  /** The second step can be taken at all: a secret is stored, and some access
      token admits the account at some time. */
  ghost predicate SecondStepOpen(s: State, u: UserId) {
    u in s.users && s.users[u].mfaSecret != "" && exists until, at :: Authenticated(s, u, until, at)
  }

  lemma {:induction false} LongerThanAll(hs: set<Hash>) returns (n: nat)
    ensures forall h :: h in hs ==> |h| < n
  {
    n := 0;
    if hs != {} {
      var h :| h in hs;
      var m := LongerThanAll(hs - {h});
      n := if m <= |h| then |h| + 1 else m;
    }
  }

  lemma FreshHash(hs: set<Hash>) returns (h: Hash)
    ensures h !in hs
  {
    var n := LongerThanAll(hs);
    h := seq(n, _ => 'f');
  }

  /** A second step with a TOTP for these secrets and this code. */
  function SecondStep(u: UserId, until: Instant, totpFor: set<string>, codeHash: Hash, at: Instant, token: Hash): Event {
    VerifyMfa(u, until, totpFor, codeHash, at, token, true)
  }

  lemma NewFactorSignsIn(s: State, held: Account, u: UserId, until: Instant, at: Instant) returns (e: Event)
    requires Authenticated(s, u, until, at) && s.users[u].mfaSecret != "" && NewFactor(held, s.users[u])
    ensures SignsIn(s, e, u) && !Presents(e, held)
  {
    var token := FreshHash(s.tokens.Keys);
    var now := s.users[u];
    if now.mfaSecret != held.mfaSecret {
      var noCode := FreshHash(set c | c in held.backupCodes);
      e := SecondStep(u, until, {now.mfaSecret}, noCode, at, token);
    } else {
      var c :| c in now.backupCodes && c !in held.backupCodes;
      e := SecondStep(u, until, {}, c, at, token);
    }
  }

  /** In any state of an account that needs a second factor: a sign-in that presents
      nothing `held` had exists if and only if the second step is open and the
      account has a factor that `held` did not have. */
  lemma UnheldSignInIff(s: State, held: Account, u: UserId)
    requires u in s.users && s.users[u].mfaEnabled
    ensures (exists e :: SignsIn(s, e, u) && !Presents(e, held)) <==> SecondStepOpen(s, u) && NewFactor(held, s.users[u])
  {
    if SecondStepOpen(s, u) && NewFactor(held, s.users[u]) {
      var until, at :| Authenticated(s, u, until, at);
      var e := NewFactorSignsIn(s, held, u, until, at);
    }
    forall e | SignsIn(s, e, u) && !Presents(e, held)
      ensures SecondStepOpen(s, u) && NewFactor(held, s.users[u])
    {
      SignInPresentsFactor(s, e, u);
      assert Authenticated(s, u, e.until, e.at);
    }
  }

  /** What a request brings that the account did not hold: another secret, or a code
      that is not among the stored ones, for an account with a secret. */
  ghost predicate Brings(s: State, r: Event, u: UserId)
    requires u in s.users
  {
    && Generates(s, r, u)
    && (r.RegenerateCodes? ==> s.users[u].mfaSecret != "")
    && ((r.ConfirmMfa? && r.secret != s.users[u].mfaSecret) || exists c :: c in r.codes && c !in s.users[u].backupCodes)
  }

  lemma BringsIff(s: State, r: Event, u: UserId)
    requires u in s.users && s.users[u].mfaEnabled && !TurnsOff(r, u)
    ensures u in Next(s, r).users && Next(s, r).users[u].mfaEnabled
    ensures Brings(s, r, u) <==> Next(s, r).users[u].mfaSecret != "" && NewFactor(s.users[u], Next(s, r).users[u])
  {
    FactorFrame(s, r, u);
    StoredCodes(s, r, u);
    if !Generates(s, r, u) {
      RemoveFirstWithin(s.users[u].backupCodes, if r.VerifyMfa? then r.codeHash else "");
    }
  }

  lemma {:induction false} RemoveFirstWithin(codes: seq<Hash>, code: Hash)
    ensures forall c :: c in RemoveFirst(codes, code) ==> c in codes
  {
    if codes != [] {
      RemoveFirstWithin(codes[1..], code);
    }
  }

  lemma ReplacementLeavesStepOpen(s: State, r: Event, u: UserId)
    requires u in s.users && Generates(s, r, u)
    ensures Authenticated(Next(s, r), u, r.until, r.at)
  {
  }

  /** The converse, exactly: after one request on an account that needs a second
      factor, a sign-in that presents nothing held before it exists if and only if
      the request was an accepted confirmation or generation that brought something. */
  lemma ReplacementOpensIff(s: State, r: Event, u: UserId)
    requires u in s.users && s.users[u].mfaEnabled && !TurnsOff(r, u)
    ensures (exists e :: SignsIn(Next(s, r), e, u) && !Presents(e, s.users[u])) <==> Brings(s, r, u)
  {
    BringsIff(s, r, u);
    UnheldSignInIff(Next(s, r), s.users[u], u);
    if Brings(s, r, u) {
      ReplacementLeavesStepOpen(s, r, u);
    }
  }

  // ---- what a login is enough for ----

  /** The temporary access token of a login that still needs its second factor is
      one like any other: until it expires it authenticates the account. */
  lemma TemporaryTokenAuthenticates(s: State, login: Event, at: Instant)
    requires login.Login? && Step(s, login).1.MfaRequired? && s.users[login.user].active
    requires login.at <= at < Expiry(login.at, TEMPORARY)
    ensures Authenticated(Next(s, login), login.user, Expiry(login.at, TEMPORARY), at)
  {
  }

  /** A login leaves the factor as it is. */
  lemma LoginKeepsFactor(s: State, login: Event)
    requires login.Login? && Step(s, login).1.MfaRequired?
    ensures var u := login.user;
      u in s.users && s.users[u].mfaEnabled
      && u in Next(s, login).users && Next(s, login).users[u].mfaEnabled
      && Next(s, login).users[u].mfaSecret == s.users[u].mfaSecret
      && Next(s, login).users[u].backupCodes == s.users[u].backupCodes
  {
  }

  /** A request to replace the factor. */
  predicate AsksToReplace(r: Event, u: UserId) {
    (r.RegenerateCodes? || (r.ConfirmMfa? && r.passwordOk && r.totpOk && r.secret != "")) && r.user == u
  }

  /** It is accepted exactly when it is authenticated, for an account that needs a
      second factor: whoever presents the access token need not present the factor. */
  lemma ReplacementAcceptedIff(s: State, r: Event, u: UserId)
    requires AsksToReplace(r, u) && u in s.users && s.users[u].mfaEnabled
    ensures Generates(s, r, u) <==> Authenticated(s, u, r.until, r.at)
  {
  }

  /** `a` has the factor of `b`. */
  predicate SameFactor(a: Account, b: Account) { a.mfaSecret == b.mfaSecret && a.backupCodes == b.backupCodes }

  lemma AuthenticatedReplaces(s: State, r: Event, u: UserId, held: Account)
    requires u in s.users && s.users[u].mfaEnabled && s.users[u].mfaSecret != "" && SameFactor(held, s.users[u])
    requires AsksToReplace(r, u) && Authenticated(s, u, r.until, r.at)
    requires exists c :: c in r.codes && c !in held.backupCodes
    ensures Generates(s, r, u)
    ensures exists e :: SignsIn(Next(s, r), e, u) && !Presents(e, held)
  {
    ReplacementAcceptedIff(s, r, u);
    ReplacementOpensIff(s, r, u);
    var e :| SignsIn(Next(s, r), e, u) && !Presents(e, s.users[u]);
    assert !Presents(e, held);
  }

  /** Main result: in every state, a login with the right password is enough to
      bring a new factor. Generating codes or confirming another secret with the
      temporary token is accepted, leaves the factor on, and a sign-in follows
      that presents nothing the account held at the start. */
  lemma LoginReachesReplacement(s: State, login: Event, r: Event)
    requires login.Login? && Step(s, login).1.MfaRequired? && s.users[login.user].active && s.users[login.user].mfaSecret != ""
    requires AsksToReplace(r, login.user) && r.until == Expiry(login.at, TEMPORARY) && login.at <= r.at < r.until
    requires exists c :: c in r.codes && c !in s.users[login.user].backupCodes
    ensures !TurnsOff(login, login.user) && !TurnsOff(r, login.user) && Generates(Next(s, login), r, login.user)
    ensures exists e :: SignsIn(Next(Next(s, login), r), e, login.user) && !Presents(e, s.users[login.user])
  {
    LoginKeepsFactor(s, login);
    TemporaryTokenAuthenticates(s, login, r.at);
    AuthenticatedReplaces(Next(s, login), r, login.user, s.users[login.user]);
  }

  /** A concrete account for which it happens, by either request. */
  lemma LoginReachesReplacementHere(byCodes: bool)
    ensures var a := Account("mail", true, true, "S", ["old"], 0, None, None);
      var s := State(map[0 := a], map[], map[], {});
      var login, codes := Login(0, true, 0, 0, "t", true), seq(10, _ => "new");
      var r := if byCodes then RegenerateCodes(0, TEMPORARY, codes, 1) else ConfirmMfa(0, TEMPORARY, true, true, "N", codes, 1);
      Generates(Next(s, login), r, 0)
      && exists e :: SignsIn(Next(Next(s, login), r), e, 0) && !Presents(e, a)
  {
    var a := Account("mail", true, true, "S", ["old"], 0, None, None);
    var s := State(map[0 := a], map[], map[], {});
    var login, codes := Login(0, true, 0, 0, "t", true), seq(10, _ => "new");
    var r := if byCodes then RegenerateCodes(0, TEMPORARY, codes, 1) else ConfirmMfa(0, TEMPORARY, true, true, "N", codes, 1);
    assert codes[0] in r.codes && codes[0] == "new";
    assert "new" !in a.backupCodes;
    LoginReachesReplacement(s, login, r);
  }
}
