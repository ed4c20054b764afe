/** Refresh tokens over whole runs: write-once revocation, single rotation,
    conservation of live tokens, and one live token per login. */
module TokenRuns {
  import opened Prelude
  import opened AuthModel

  // ---- every request as one write to the token table ----

  /** The live records that the request revokes. */
  function RevokedBy(s: State, e: Event): set<Hash> {
    if e.Refresh? && RotationAccepted(s, e) then {e.cookie.hash}
    else if e.Refresh? && e.cookie.Presents? && !TokenFound(s, e.cookie.subject, e.cookie.hash) then LiveTokens(s, e.cookie.subject)
    else if e.Logout? && Step(s, e).1.Done? && e.presented.Some? then
      (if e.presented.value in s.tokens && Live(s.tokens[e.presented.value]) then {e.presented.value} else {})
    else if EndsAllSessions(e) && Step(s, e).1.Done? then LiveTokens(s, e.user)
    else {}
  }

  predicate EndsAllSessions(e: Event) {
    e.LogoutAll? || e.RevokeSession? || e.ResetPassword? || e.ForceLogout? || e.Deactivate?
  }

  /** The record that the request adds, with its owner. */
  function IssuedBy(s: State, e: Event): Option<(UserId, Hash)> {
    if !Step(s, e).1.TokensIssued? then None
    else match e
      case Login(u, _, _, _, h, _) => Some((u, h))
      case VerifyMfa(u, _, _, _, _, h, _) => Some((u, h))
      case Refresh(Presents(u, _), _, h, _) => Some((u, h))
      case _ => None
  }

  /** The table `t'` after a write to `t`: exactly the records in `revoked`, all
      live, are stamped with the time, exactly the issued record is new and live,
      and nothing else changes. */
  ghost predicate Wrote(t: map<Hash, TokenRecord>, t': map<Hash, TokenRecord>, at: Instant, revoked: set<Hash>, issued: Option<(UserId, Hash)>) {
    && (forall h :: h in revoked ==> h in t && Live(t[h]))
    && (issued.Some? ==> issued.value.1 !in t && issued.value.1 in t'
                         && t'[issued.value.1].owner == issued.value.0 && Live(t'[issued.value.1]))
    && t'.Keys == t.Keys + (if issued.Some? then {issued.value.1} else {})
    && (forall h :: h in t ==> t'[h] == if h in revoked then t[h].(revokedAt := Some(at)) else t[h])
  }

  lemma SignInWrite(s: State, e: Event)
    requires e.Login? || e.VerifyMfa?
    ensures Wrote(s.tokens, Next(s, e).tokens, e.at, RevokedBy(s, e), IssuedBy(s, e))
  {
  }

  lemma RefreshWrite(s: State, e: Event)
    requires e.Refresh?
    ensures Wrote(s.tokens, Next(s, e).tokens, e.at, RevokedBy(s, e), IssuedBy(s, e))
  {
  }

  lemma LogoutWrite(s: State, e: Event)
    requires e.Logout?
    ensures Wrote(s.tokens, Next(s, e).tokens, e.at, RevokedBy(s, e), IssuedBy(s, e))
  {
  }

  lemma BulkWrite(s: State, e: Event)
    requires EndsAllSessions(e)
    ensures Wrote(s.tokens, Next(s, e).tokens, e.at, RevokedBy(s, e), IssuedBy(s, e))
  {
  }

  /** Every request writes to the token table as `RevokedBy` and `IssuedBy` say. */
  lemma TokenTableWrite(s: State, e: Event)
    ensures Wrote(s.tokens, Next(s, e).tokens, e.at, RevokedBy(s, e), IssuedBy(s, e))
  {
    if NoTokens(e) {
      NoTokensFrame(s, e);
    } else if e.Login? || e.VerifyMfa? {
      SignInWrite(s, e);
    } else if e.Refresh? {
      RefreshWrite(s, e);
    } else if e.Logout? {
      LogoutWrite(s, e);
    } else {
      BulkWrite(s, e);
    }
  }

  // ---- revocation is write-once ----

  lemma {:induction false} RevokedForever(s: State, es: seq<Event>, h: Hash)
    requires h in s.tokens && !Live(s.tokens[h])
    ensures h in Run(s, es).tokens && Run(s, es).tokens[h] == s.tokens[h]
    decreases |es|
  {
    if es != [] {
      TokenTableWrite(s, es[0]);
      RevokedForever(Next(s, es[0]), es[1..], h);
    }
  }

  /** The request trades the token `h` in. */
  predicate Rotates(s: State, e: Event, h: Hash) {
    e.Refresh? && RotationAccepted(s, e) && e.cookie.hash == h
  }

  function Rotations(s: State, es: seq<Event>, h: Hash): nat
    decreases |es|
  {
    if es == [] then 0
    else (if Rotates(s, es[0], h) then 1 else 0) + Rotations(Next(s, es[0]), es[1..], h)
  }

  lemma {:induction false} RevokedIsNeverRotated(s: State, es: seq<Event>, h: Hash)
    requires h in s.tokens && !Live(s.tokens[h])
    ensures Rotations(s, es, h) == 0
    decreases |es|
  {
    if es != [] {
      TokenTableWrite(s, es[0]);
      RevokedIsNeverRotated(Next(s, es[0]), es[1..], h);
    }
  }

  /** Main result: in every run a token is traded in at most once. */
  lemma {:induction false} RotatedAtMostOnce(s: State, es: seq<Event>, h: Hash)
    ensures Rotations(s, es, h) <= 1
    decreases |es|
  {
    if es != [] {
      if Rotates(s, es[0], h) {
        TokenTableWrite(s, es[0]);
        RevokedIsNeverRotated(Next(s, es[0]), es[1..], h);
      } else {
        RotatedAtMostOnce(Next(s, es[0]), es[1..], h);
      }
    }
  }

  /** Replay: once a token is revoked, whatever happens in between, presenting it
      again leaves its subject without a live token. */
  lemma ReplayEndsEverySession(s: State, es: seq<Event>, h: Hash, replay: Event)
    requires h in s.tokens && !Live(s.tokens[h])
    requires replay.Refresh? && replay.cookie.Presents? && replay.cookie.hash == h
    ensures Step(Run(s, es), replay).1 == ReuseDetected
    ensures LiveTokens(Next(Run(s, es), replay), replay.cookie.subject) == {}
  {
    RevokedForever(s, es, h);
    TokenTableWrite(Run(s, es), replay);
  }

  // ---- lifetime ----

  /** A stored record keeps its owner and its expiry for good. */
  lemma {:induction false} RecordsKeepExpiry(s: State, es: seq<Event>, h: Hash)
    requires h in s.tokens
    ensures h in Run(s, es).tokens
    ensures Run(s, es).tokens[h].expiresAt == s.tokens[h].expiresAt && Run(s, es).tokens[h].owner == s.tokens[h].owner
    decreases |es|
  {
    if es != [] {
      TokenTableWrite(s, es[0]);
      RecordsKeepExpiry(Next(s, es[0]), es[1..], h);
    }
  }

  lemma IssuedForAWeek(s: State, e: Event)
    requires IssuedBy(s, e).Some?
    ensures var h := IssuedBy(s, e).value.1; h in Next(s, e).tokens && Next(s, e).tokens[h].expiresAt == e.at + 7 * 24 * 60 * MINUTE
  {
  }

  /** No run trades a token in more than a week after it was issued, or for anyone
      but the user it was issued to. */
  lemma RotatedWithinAWeek(s: State, issue: Event, es: seq<Event>, rotate: Event, h: Hash)
    requires IssuedBy(s, issue).Some? && IssuedBy(s, issue).value.1 == h
    requires Rotates(Run(Next(s, issue), es), rotate, h)
    ensures rotate.at <= issue.at + 7 * 24 * 60 * MINUTE
    ensures rotate.cookie.subject == IssuedBy(s, issue).value.0
  {
    TokenTableWrite(s, issue);
    IssuedForAWeek(s, issue);
    RecordsKeepExpiry(Next(s, issue), es, h);
  }

  // ---- conservation of live tokens ----

  predicate SignsInSomeone(s: State, e: Event) {
    (e.Login? || e.VerifyMfa?) && Step(s, e).1.TokensIssued?
  }

  function LiveIn(t: map<Hash, TokenRecord>, u: UserId): set<Hash> {
    set h | h in t && t[h].owner == u && Live(t[h])
  }

  lemma LiveAfterWrite(t: map<Hash, TokenRecord>, t': map<Hash, TokenRecord>, at: Instant, revoked: set<Hash>,
                       issued: Option<(UserId, Hash)>, u: UserId)
    requires Wrote(t, t', at, revoked, issued)
    ensures LiveIn(t', u)
         == LiveIn(t, u) - revoked + (if issued.Some? && issued.value.0 == u then {issued.value.1} else {})
  {
  }

  /** The live set of `u` after a request, as the writes above leave it. */
  lemma LiveAfter(s: State, e: Event, u: UserId)
    ensures LiveTokens(Next(s, e), u)
         == LiveTokens(s, u) - RevokedBy(s, e)
            + (if IssuedBy(s, e).Some? && IssuedBy(s, e).value.0 == u then {IssuedBy(s, e).value.1} else {})
  {
    TokenTableWrite(s, e);
    LiveAfterWrite(s.tokens, Next(s, e).tokens, e.at, RevokedBy(s, e), IssuedBy(s, e), u);
    assert LiveTokens(Next(s, e), u) == LiveIn(Next(s, e).tokens, u) && LiveTokens(s, u) == LiveIn(s.tokens, u);
  }

  lemma SignInEffect(s: State, e: Event)
    requires SignsInSomeone(s, e)
    ensures RevokedBy(s, e) == {} && IssuedBy(s, e) == Some((e.user, e.token)) && e.token !in s.tokens
  {
  }

  /** Signing in adds exactly one live token, to its own user. */
  lemma SignInAddsOne(s: State, e: Event, u: UserId)
    requires SignsInSomeone(s, e)
    ensures |LiveTokens(Next(s, e), u)| == |LiveTokens(s, u)| + (if e.user == u then 1 else 0)
  {
    SignInEffect(s, e);
    LiveAfter(s, e, u);
    Resized(LiveTokens(s, u), LiveTokens(Next(s, e), u), {}, if e.user == u then {e.token} else {});
  }

  /** Sizes after removing members and adding strangers. */
  lemma Resized(before: set<Hash>, after: set<Hash>, gone: set<Hash>, added: set<Hash>)
    requires after == before - gone + added && gone <= before && added !! before
    ensures |after| == |before| - |gone| + |added|
  {
    assert before == (before - gone) + gone;
  }

  lemma RotationEffect(s: State, e: Event)
    requires e.Refresh? && RotationAccepted(s, e)
    ensures Step(s, e).1.TokensIssued? <==> e.storeUp && e.token !in s.tokens
    ensures RevokedBy(s, e) == {e.cookie.hash} && TokenFound(s, e.cookie.subject, e.cookie.hash)
    ensures IssuedBy(s, e) == if Step(s, e).1.TokensIssued? then Some((e.cookie.subject, e.token)) else None
  {
  }

  /** A rotation keeps every user's number of live tokens; when the new pair
      cannot be issued the old token is gone all the same. */
  lemma RotationKeepsCount(s: State, e: Event, u: UserId)
    requires e.Refresh? && RotationAccepted(s, e)
    ensures Step(s, e).1.TokensIssued? <==> e.storeUp && e.token !in s.tokens
    ensures |LiveTokens(Next(s, e), u)|
         == |LiveTokens(s, u)| - (if e.cookie.subject == u && !Step(s, e).1.TokensIssued? then 1 else 0)
  {
    RotationEffect(s, e);
    LiveAfter(s, e, u);
    var mine := e.cookie.subject == u;
    Resized(LiveTokens(s, u), LiveTokens(Next(s, e), u), if mine then {e.cookie.hash} else {},
            if mine && Step(s, e).1.TokensIssued? then {e.token} else {});
  }

  lemma LogoutEffect(s: State, e: Event)
    requires e.Logout?
    ensures IssuedBy(s, e) == None
    ensures RevokedBy(s, e) == {} || (e.presented.Some? && RevokedBy(s, e) == {e.presented.value})
  {
  }

  /** Logging out removes at most one live token, whoever owned it. */
  lemma LogoutRemovesAtMostOne(s: State, e: Event, u: UserId)
    requires e.Logout?
    ensures |LiveTokens(s, u)| - 1 <= |LiveTokens(Next(s, e), u)| <= |LiveTokens(s, u)|
    ensures LiveTokens(Next(s, e), u) != LiveTokens(s, u) ==>
      e.presented.Some? && LiveTokens(Next(s, e), u) == LiveTokens(s, u) - {e.presented.value}
  {
    LogoutEffect(s, e);
    LiveAfter(s, e, u);
    var gone := RevokedBy(s, e) * LiveTokens(s, u);
    Resized(LiveTokens(s, u), LiveTokens(Next(s, e), u), gone, {});
    SubsetSize(gone, RevokedBy(s, e));
  }

  /** Every accepted bulk revocation, and every replayed token, leaves its user
      with no live token and every other user's live tokens as they were. */
  lemma BulkRevocationEmptiesOneUser(s: State, e: Event, u: UserId)
    requires (EndsAllSessions(e) && Step(s, e).1.Done?) || (e.Refresh? && Step(s, e).1.ReuseDetected?)
    ensures var target := if e.Refresh? then e.cookie.subject else e.user;
      LiveTokens(Next(s, e), u) == if u == target then {} else LiveTokens(s, u)
  {
    LiveAfter(s, e, u);
  }

  /** No other request gives any user more live tokens than before. */
  lemma OnlySignInsAdd(s: State, e: Event, u: UserId)
    requires !SignsInSomeone(s, e)
    ensures |LiveTokens(Next(s, e), u)| <= |LiveTokens(s, u)|
  {
    if e.Refresh? && RotationAccepted(s, e) {
      RotationKeepsCount(s, e, u);
    } else {
      LiveAfter(s, e, u);
      assert IssuedBy(s, e).None?;
      SubsetSize(LiveTokens(Next(s, e), u), LiveTokens(s, u));
    }
  }

  lemma {:induction false} SubsetSize<T>(a: set<T>, b: set<T>)
    requires a <= b
    ensures |a| <= |b|
  {
    assert b == a + (b - a);
  }

  /** The second commit is what empties the table: a reset or deactivation that
      is accepted leaves live tokens exactly when the session store failed and
      there were any. */
  lemma TokensSurviveOnlyStoreFailure(s: State, e: Event)
    requires (e.ResetPassword? && TicketValid(s, e)) || (e.Deactivate? && e.user in s.users && e.user != e.caller)
    ensures LiveTokens(Next(s, e), e.user) != {} <==> !e.storeUp && LiveTokens(s, e.user) != {}
  {
    LiveAfter(s, e, e.user);
  }

  // ---- switching an account off and on again ----

  lemma ReactivationRestores(s: State, back: Event, u: UserId)
    requires back.Reactivate? && back.user == u && u in s.users
    ensures Next(s, back).tokens == s.tokens && forall at :: MayAct(Next(s, back), u, at)
  {
  }

  /** A deactivation by PATCH writes no token: an unexpired live token of the user is
      refused meanwhile, and traded in again after the reactivation. */
  lemma TokensSurvivePatch(s: State, patch: Event, back: Event, refresh: Event)
    requires patch.UpdateUser? && Step(s, patch).1.Done? && patch.changes.active == Some(false)
    requires back.Reactivate? && back.user == patch.user
    requires refresh.Refresh? && refresh.cookie.Presents? && refresh.cookie.subject == patch.user
    requires TokenFound(s, patch.user, refresh.cookie.hash) && s.tokens[refresh.cookie.hash].expiresAt >= refresh.at
    ensures Step(Next(s, patch), refresh) == (Next(s, patch), Rejected)
    ensures RotationAccepted(Next(Next(s, patch), back), refresh)
  {
    NoTokensFrame(s, patch);
    ReactivationRestores(Next(s, patch), back, patch.user);
  }

  /** After a deactivation by the endpoint of that name it is traded in again exactly
      when the session store had failed. */
  lemma TokensSurviveDeactivationIff(s: State, off: Event, back: Event, refresh: Event)
    requires off.Deactivate? && off.user in s.users && off.user != off.caller
    requires back.Reactivate? && back.user == off.user
    requires refresh.Refresh? && refresh.cookie.Presents? && refresh.cookie.subject == off.user
    requires TokenFound(s, off.user, refresh.cookie.hash) && s.tokens[refresh.cookie.hash].expiresAt >= refresh.at
    ensures RotationAccepted(Next(Next(s, off), back), refresh) <==> !off.storeUp
  {
    ReactivationRestores(Next(s, off), back, off.user);
  }

  function SignIns(s: State, es: seq<Event>, u: UserId): nat
    decreases |es|
  {
    if es == [] then 0
    else (if SignsInSomeone(s, es[0]) && es[0].user == u then 1 else 0) + SignIns(Next(s, es[0]), es[1..], u)
  }

  /** Only signing in adds a live token, over any run. */
  lemma {:induction false} LiveTokensComeFromSignIns(s: State, es: seq<Event>, u: UserId)
    ensures |LiveTokens(Run(s, es), u)| <= |LiveTokens(s, u)| + SignIns(s, es, u)
    decreases |es|
  {
    if es != [] {
      if SignsInSomeone(s, es[0]) {
        SignInAddsOne(s, es[0], u);
      } else {
        OnlySignInsAdd(s, es[0], u);
      }
      LiveTokensComeFromSignIns(Next(s, es[0]), es[1..], u);
    }
  }

  // ---- one live token per sign-in ----

  /** For each token the one it descends from: a sign-in starts a lineage, a
      rotation continues it. */
  type Lineage = map<Hash, Hash>

  function Extend(s: State, e: Event, lineage: Lineage): Lineage {
    Extended(lineage, IssuedBy(s, e), ParentOf(e))
  }

  function Extended(lineage: Lineage, issued: Option<(UserId, Hash)>, parent: Option<Hash>): Lineage {
    if issued.None? then lineage else Descend(lineage, issued.value.1, parent)
  }

  function Trace(s: State, es: seq<Event>, lineage: Lineage): Lineage
    decreases |es|
  {
    if es == [] then lineage else Trace(Next(s, es[0]), es[1..], Extend(s, es[0], lineage))
  }

  ghost predicate RootOf(t: map<Hash, TokenRecord>, lineage: Lineage, h: Hash)
    requires h in lineage && h in t
  {
    lineage[h] in t && lineage[h] in lineage && lineage[lineage[h]] == lineage[h] && t[lineage[h]].owner == t[h].owner
  }

  /** Every token descends from a known token of the same user, and two live
      tokens never descend from the same one. */
  ghost predicate Linear(t: map<Hash, TokenRecord>, lineage: Lineage) {
    && lineage.Keys == t.Keys
    && (forall h :: h in lineage ==> RootOf(t, lineage, h))
    && forall g, h :: g in t && h in t && Live(t[g]) && Live(t[h]) && lineage[g] == lineage[h] ==> g == h
  }

  /** A new token's lineage: its own, or that of the live token it replaces. */
  function Descend(lineage: Lineage, h: Hash, parent: Option<Hash>): Lineage {
    lineage[h := if parent.Some? && parent.value in lineage then lineage[parent.value] else h]
  }

  /** Adding a live token keeps lineages linear when its parent, if any, was the
      live token of that lineage and is revoked by the same request. */
  lemma AddKeepsLinear(t: map<Hash, TokenRecord>, t': map<Hash, TokenRecord>, lineage: Lineage, h: Hash, parent: Option<Hash>)
    requires Linear(t, lineage)
    requires h !in t && h in t' && t'.Keys == t.Keys + {h}
    requires forall g :: g in t ==> t'[g].owner == t[g].owner && (Live(t'[g]) ==> Live(t[g]))
    requires parent.Some? ==> parent.value in t && Live(t[parent.value]) && !Live(t'[parent.value])
                              && t[parent.value].owner == t'[h].owner
    ensures Linear(t', Descend(lineage, h, parent))
  {
    var lineage' := Descend(lineage, h, parent);
    forall g | g in lineage'
      ensures RootOf(t', lineage', g)
    {
      if g != h {
        assert RootOf(t, lineage, g);
      } else if parent.Some? {
        assert RootOf(t, lineage, parent.value);
      }
    }
    forall f, g | f in t' && g in t' && Live(t'[f]) && Live(t'[g]) && lineage'[f] == lineage'[g]
      ensures f == g
    {
      if f != h && g != h {
        assert lineage[f] == lineage[g];
      }
    }
  }

  /** Revoking keeps lineages linear. */
  lemma RevokeKeepsLinear(t: map<Hash, TokenRecord>, t': map<Hash, TokenRecord>, lineage: Lineage)
    requires Linear(t, lineage)
    requires t'.Keys == t.Keys
    requires forall g :: g in t ==> t'[g].owner == t[g].owner && (Live(t'[g]) ==> Live(t[g]))
    ensures Linear(t', lineage)
  {
    forall g | g in lineage
      ensures RootOf(t', lineage, g)
    {
      assert RootOf(t, lineage, g);
    }
  }

  /** Any write keeps lineages linear when an issued token continues the lineage of
      a record that the same write revokes, or starts its own. */
  lemma WriteKeepsLinear(t: map<Hash, TokenRecord>, t': map<Hash, TokenRecord>, at: Instant, revoked: set<Hash>,
                         issued: Option<(UserId, Hash)>, parent: Option<Hash>, lineage: Lineage)
    requires Linear(t, lineage) && Wrote(t, t', at, revoked, issued)
    requires issued.Some? && parent.Some? ==> parent.value in revoked && t[parent.value].owner == issued.value.0
    ensures Linear(t', Extended(lineage, issued, parent))
  {
    if issued.None? {
      RevokeKeepsLinear(t, t', lineage);
    } else {
      AddKeepsLinear(t, t', lineage, issued.value.1, parent);
    }
  }

  function ParentOf(e: Event): Option<Hash> {
    if e.Refresh? && e.cookie.Presents? then Some(e.cookie.hash) else None
  }

  lemma IssuedParent(s: State, e: Event)
    ensures IssuedBy(s, e).Some? && ParentOf(e).Some? ==>
      ParentOf(e).value in RevokedBy(s, e) && ParentOf(e).value in s.tokens
      && s.tokens[ParentOf(e).value].owner == IssuedBy(s, e).value.0
  {
    if IssuedBy(s, e).Some? && ParentOf(e).Some? {
      RotationEffect(s, e);
    }
  }

  lemma StepKeepsLinear(s: State, e: Event, lineage: Lineage)
    requires Linear(s.tokens, lineage)
    ensures Linear(Next(s, e).tokens, Extend(s, e, lineage))
  {
    TokenTableWrite(s, e);
    IssuedParent(s, e);
    WriteKeepsLinear(s.tokens, Next(s, e).tokens, e.at, RevokedBy(s, e), IssuedBy(s, e), ParentOf(e), lineage);
  }

  /** Main result: from any state, after any run, each sign-in (and each token
      the run started with) has at most one live descendant. */
  lemma {:induction false} OneLiveTokenPerSignIn(s: State, es: seq<Event>, lineage: Lineage)
    requires Linear(s.tokens, lineage)
    ensures Linear(Run(s, es).tokens, Trace(s, es, lineage))
    decreases |es|
  {
    if es != [] {
      StepKeepsLinear(s, es[0], lineage);
      OneLiveTokenPerSignIn(Next(s, es[0]), es[1..], Extend(s, es[0], lineage));
    }
  }

  /** Any state can start such a run: give each of its tokens a lineage of its own. */
  lemma EveryStateStartsLinear(s: State)
    ensures Linear(s.tokens, map h | h in s.tokens :: h)
  {
  }
}
