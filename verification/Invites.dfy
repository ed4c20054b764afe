/** Registration and invitations over whole runs. */
module Invites {
  import opened Prelude
  import opened AuthModel

  /** What the tables promise: distinct e-mail hashes among users and among
      unused invites, and a used invite points at a user of its own. */
  ghost predicate Consistent(s: State) {
    EmailsDistinct(s) && UnusedDistinct(s) && UsedByUsers(s)
  }

  ghost predicate EmailsDistinct(s: State) {
    forall u, v :: u in s.users && v in s.users && s.users[u].emailHash == s.users[v].emailHash ==> u == v
  }

  ghost predicate UnusedDistinct(s: State) {
    forall i, j :: i in s.invites && j in s.invites && Unused(s, i) && Unused(s, j) ==>
      s.invites[i].emailHash == s.invites[j].emailHash ==> i == j
  }

  ghost predicate UsedByUsers(s: State) {
    && (forall i :: i in s.invites && Unused(s, i) ==> s.invites[i].usedBy.None?)
    && (forall i :: i in s.invites && !Unused(s, i) ==> s.invites[i].usedBy.Some? && s.invites[i].usedBy.value in s.users)
    && (forall i, j :: i in s.invites && j in s.invites && !Unused(s, i) && !Unused(s, j) ==>
          s.invites[i].usedBy == s.invites[j].usedBy ==> i == j)
  }

  predicate Unused(s: State, i: string)
    requires i in s.invites
  {
    s.invites[i].usedAt.None?
  }

  /** Requests that are not about addresses or invites leave both tables' keys alone. */
  lemma OthersKeepTables(s: State, e: Event)
    requires !e.Register? && !e.InviteUser? && !e.AcceptInvite? && !e.UpdateUser?
    ensures Next(s, e).invites == s.invites && Next(s, e).users.Keys == s.users.Keys
    ensures forall u :: u in s.users ==> Next(s, e).users[u].emailHash == s.users[u].emailHash
  {
    if OnlyTokens(e) {
      OnlyTokensFrame(s, e);
    } else {
      OneAccountFrame(s, e);
    }
  }

  lemma AcceptKeepsConsistent(s: State, e: Event)
    requires Consistent(s) && e.AcceptInvite? && AcceptStep(s, e).1.Done?
    ensures Consistent(AcceptStep(s, e).0)
  {
    var s' := AcceptStep(s, e).0;
    assert s'.users == s.users[e.id := NewAccount(s.invites[e.invite].emailHash)];
    assert s'.invites == s.invites[e.invite := s.invites[e.invite].(usedAt := Some(e.at), usedBy := Some(e.id))];
    assert EmailsDistinct(s');
    assert UnusedDistinct(s');
    assert UsedByUsers(s');
  }

  lemma RegisterKeepsConsistent(s: State, e: Event)
    requires Consistent(s) && e.Register?
    ensures Consistent(RegisterStep(s, e).0)
  {
    var s' := RegisterStep(s, e).0;
    assert s'.invites == s.invites;
    assert EmailsDistinct(s');
    assert UnusedDistinct(s');
    assert UsedByUsers(s');
  }

  lemma InviteKeepsConsistent(s: State, e: Event)
    requires Consistent(s) && e.InviteUser?
    ensures Consistent(InviteStep(s, e).0)
  {
    var s' := InviteStep(s, e).0;
    assert s'.users == s.users;
    assert EmailsDistinct(s');
    assert UnusedDistinct(s');
    assert UsedByUsers(s');
  }

  lemma UpdateKeepsConsistent(s: State, e: Event)
    requires Consistent(s) && e.UpdateUser?
    ensures Consistent(UpdateStep(s, e).0)
  {
    var s' := UpdateStep(s, e).0;
    assert s'.invites == s.invites && s'.users.Keys == s.users.Keys;
    assert EmailsDistinct(s');
    assert UnusedDistinct(s');
    assert UsedByUsers(s');
  }

  /** Consistency looks only at the invites and the users' e-mail hashes. */
  lemma SameTablesConsistent(s: State, s': State)
    requires Consistent(s) && s'.invites == s.invites && s'.users.Keys == s.users.Keys
    requires forall u :: u in s.users ==> s'.users[u].emailHash == s.users[u].emailHash
    ensures Consistent(s')
  {
    assert EmailsDistinct(s');
    assert UnusedDistinct(s');
    assert UsedByUsers(s');
  }

  lemma StepKeepsConsistent(s: State, e: Event)
    requires Consistent(s)
    ensures Consistent(Next(s, e))
  {
    if e.AcceptInvite? {
      if AcceptStep(s, e).1.Done? {
        AcceptKeepsConsistent(s, e);
      }
    } else if e.Register? {
      RegisterKeepsConsistent(s, e);
    } else if e.InviteUser? {
      InviteKeepsConsistent(s, e);
    } else if e.UpdateUser? {
      UpdateKeepsConsistent(s, e);
    } else {
      OthersKeepTables(s, e);
      SameTablesConsistent(s, Next(s, e));
    }
  }

  lemma {:induction false} RunKeepsConsistent(s: State, es: seq<Event>)
    requires Consistent(s)
    ensures Consistent(Run(s, es))
    decreases |es|
  {
    if es != [] {
      StepKeepsConsistent(s, es[0]);
      RunKeepsConsistent(Next(s, es[0]), es[1..]);
    }
  }

  /** Exactly when an invitation is created: nobody has the address and no unused
      invite does, expired or not. The handler's own check for an active invite
      is weaker than the unique index behind it. */
  lemma InvitationCreatedIff(s: State, e: Event)
    requires e.InviteUser? && e.invite !in s.invites
    ensures Step(s, e).1.Done? <==> !EmailTaken(s, e.emailHash) && !UnusedInvite(s, e.emailHash)
    ensures !EmailTaken(s, e.emailHash) && UnusedInvite(s, e.emailHash) && !ActiveInvite(s, e.emailHash, e.at) ==>
      Step(s, e) == (s, Failed)
  {
  }

  predicate Accepts(s: State, e: Event, invite: string) {
    e.AcceptInvite? && e.invite == invite && Step(s, e).1.Done?
  }

  function Acceptances(s: State, es: seq<Event>, invite: string): nat
    decreases |es|
  {
    if es == [] then 0
    else (if Accepts(s, es[0], invite) then 1 else 0) + Acceptances(Next(s, es[0]), es[1..], invite)
  }

  /** Used invites stay as they are. */
  lemma UsedStays(s: State, e: Event, invite: string)
    requires invite in s.invites && !Unused(s, invite)
    ensures invite in Next(s, e).invites && Next(s, e).invites[invite] == s.invites[invite]
  {
  }

  lemma {:induction false} UsedIsNeverAccepted(s: State, es: seq<Event>, invite: string)
    requires invite in s.invites && !Unused(s, invite)
    ensures Acceptances(s, es, invite) == 0
    decreases |es|
  {
    if es != [] {
      UsedStays(s, es[0], invite);
      UsedIsNeverAccepted(Next(s, es[0]), es[1..], invite);
    }
  }

  /** Main result: in every run an invite creates at most one user. */
  lemma {:induction false} AcceptedAtMostOnce(s: State, es: seq<Event>, invite: string)
    ensures Acceptances(s, es, invite) <= 1
    decreases |es|
  {
    if es != [] {
      if Accepts(s, es[0], invite) {
        UsedIsNeverAccepted(Next(s, es[0]), es[1..], invite);
      } else {
        AcceptedAtMostOnce(Next(s, es[0]), es[1..], invite);
      }
    }
  }

  // ---- what an acceptance is worth ----

  /** A stored invite keeps its address and its expiry. */
  lemma TermsStay(s: State, e: Event, invite: string)
    requires invite in s.invites
    ensures invite in Next(s, e).invites
    ensures Next(s, e).invites[invite].emailHash == s.invites[invite].emailHash
    ensures Next(s, e).invites[invite].expiresAt == s.invites[invite].expiresAt
  {
    if !e.Register? && !e.InviteUser? && !e.AcceptInvite? && !e.UpdateUser? {
      OthersKeepTables(s, e);
    }
  }

  lemma {:induction false} TermsStayForGood(s: State, es: seq<Event>, invite: string)
    requires invite in s.invites
    ensures invite in Run(s, es).invites
    ensures Run(s, es).invites[invite].emailHash == s.invites[invite].emailHash
    ensures Run(s, es).invites[invite].expiresAt == s.invites[invite].expiresAt
    decreases |es|
  {
    if es != [] {
      TermsStay(s, es[0], invite);
      TermsStayForGood(Next(s, es[0]), es[1..], invite);
    }
  }

  lemma AcceptEffect(s: State, e: Event, invite: string)
    requires Accepts(s, e, invite)
    ensures invite in s.invites && e.at < s.invites[invite].expiresAt
    ensures e.id !in s.users && e.id in Next(s, e).users
    ensures Next(s, e).users[e.id].emailHash == s.invites[invite].emailHash
    ensures invite in Next(s, e).invites && Next(s, e).invites[invite].usedBy == Some(e.id)
  {
  }

  /** Whatever happens in between, an invite is accepted only within a week of its
      creation, and the account it creates has the invited address. */
  lemma AcceptedWithinAWeek(s: State, create: Event, es: seq<Event>, accept: Event)
    requires create.InviteUser? && Step(s, create).1.Done?
    requires Accepts(Run(Next(s, create), es), accept, create.invite)
    ensures accept.at < create.at + 7 * 24 * 60 * MINUTE
    ensures var end := Next(Run(Next(s, create), es), accept);
      accept.id in end.users && end.users[accept.id].emailHash == create.emailHash
      && create.invite in end.invites && end.invites[create.invite].usedBy == Some(accept.id)
  {
    TermsStayForGood(Next(s, create), es, create.invite);
    AcceptEffect(Run(Next(s, create), es), accept, create.invite);
  }

  /** Requests that create a user: registrations and acceptances that succeed. */
  function UsersCreated(s: State, es: seq<Event>): nat
    decreases |es|
  {
    if es == [] then 0
    else (if CreatesUser(s, es[0]) then 1 else 0)
         + UsersCreated(Next(s, es[0]), es[1..])
  }

  predicate CreatesUser(s: State, e: Event) {
    (e.Register? || e.AcceptInvite?) && Step(s, e).1.Done?
  }

  /** Only registering and accepting create a user, one each; nothing removes one. */
  lemma UserCreation(s: State, e: Event)
    ensures CreatesUser(s, e) ==> e.id !in s.users
    ensures Next(s, e).users.Keys == s.users.Keys + (if CreatesUser(s, e) then {e.id} else {})
  {
  }

  lemma {:induction false} UsersCounted(s: State, es: seq<Event>)
    ensures |Run(s, es).users.Keys| == |s.users.Keys| + UsersCreated(s, es)
    decreases |es|
  {
    if es != [] {
      UserCreation(s, es[0]);
      UsersCounted(Next(s, es[0]), es[1..]);
    }
  }

  // ---- an expired invite is a dead end ----

  /** An unused invite for an address nobody has, past its expiry. */
  ghost predicate DeadEnd(s: State, invite: string, now: Instant) {
    && Consistent(s)
    && invite in s.invites && Unused(s, invite) && s.invites[invite].expiresAt <= now
  }

  /** A request from `now` on leaves the expired invite in place. */
  lemma DeadEndStays(s: State, e: Event, invite: string, now: Instant)
    requires DeadEnd(s, invite, now) && now <= e.at
    ensures DeadEnd(Next(s, e), invite, now)
    ensures Next(s, e).invites[invite] == s.invites[invite]
  {
    StepKeepsConsistent(s, e);
    TermsStay(s, e, invite);
    if !e.Register? && !e.InviteUser? && !e.AcceptInvite? && !e.UpdateUser? {
      OthersKeepTables(s, e);
    }
  }

  /** Neither an invitation nor an acceptance for its address succeeds then. */
  lemma DeadEndRefuses(s: State, e: Event, invite: string, now: Instant)
    requires DeadEnd(s, invite, now) && now <= e.at
    ensures e.InviteUser? && e.emailHash == s.invites[invite].emailHash ==> !Step(s, e).1.Done?
    ensures e.AcceptInvite? && e.invite in s.invites && s.invites[e.invite].emailHash == s.invites[invite].emailHash ==>
      !Step(s, e).1.Done?
  {
    if e.AcceptInvite? && Step(s, e).1.Done? {
      AcceptEffect(s, e, e.invite);
      assert Unused(s, e.invite);
    }
  }

  predicate InvitesAddress(s: State, e: Event, hash: Hash) {
    Step(s, e).1.Done? && ((e.InviteUser? && e.emailHash == hash)
                           || (e.AcceptInvite? && e.invite in s.invites && s.invites[e.invite].emailHash == hash))
  }

  function InvitationSteps(s: State, es: seq<Event>, hash: Hash): nat
    decreases |es|
  {
    if es == [] then 0
    else (if InvitesAddress(s, es[0], hash) then 1 else 0) + InvitationSteps(Next(s, es[0]), es[1..], hash)
  }

  /** Main result: once an unused invite has expired, no run ever creates or
      accepts an invitation for that address again. */
  lemma {:induction false} ExpiredInviteBlocksForever(s: State, es: seq<Event>, invite: string, now: Instant, to: Instant)
    requires DeadEnd(s, invite, now) && Clocked(es, now, to)
    ensures InvitationSteps(s, es, s.invites[invite].emailHash) == 0
    decreases |es|
  {
    if es != [] {
      DeadEndStays(s, es[0], invite, now);
      DeadEndRefuses(s, es[0], invite, now);
      ClockedFrom(es[1..], Finished(es[0]), now, to);
      ExpiredInviteBlocksForever(Next(s, es[0]), es[1..], invite, now, to);
    }
  }

  /** A run clocked from a later instant is clocked from an earlier one, when
      its first request allows. */
  lemma ClockedFrom(es: seq<Event>, later: Instant, now: Instant, to: Instant)
    requires Clocked(es, later, to) && now <= later
    ensures Clocked(es, now, to)
  {
  }
}
