# CarbonVerify: a verified model of its core

CarbonVerify is a platform for monitoring, reporting and verification of carbon
projects. This project models its most intricate behaviour in Dafny and proves
what holds over every input, every reply of the language model and every run.

| module | what it models |
|---|---|
| `AuthModel`, `AuthService` | the account store: a state with one step for each of eighteen requests, and the handlers as methods of a class over the stored tables, each proved equal to its step, commit by commit |
| `AuthOutcomes` | what each request answers and writes, exactly, in terms of the tables alone, and that no run gives access without the password |
| `Lockout`, `TokenRuns`, `SecondFactor`, `PasswordReset`, `Invites` | theorems over every interleaving of those requests, by any users |
| `StatusMachine`, `Lifecycles`, `LifecycleRows` | the shared transition checker for any map, the three maps, and the two endpoints that write a status without asking it |
| `Methodology` | the review of generated methodologies, with the session whose rollback hides a premature assignment |
| `DeployGate`, `HealthScore`, `GateBound` | the daily streak, the composite score, and which backlogs can pass the gate |
| `Confidence`, `Sorting`, `QualityControl`, `Ingestion`, `Validation` | the statistical and confidence pipeline of the agents, for arbitrary replies |
| `LeadQuery`, `LeadImport`, `LeadScrape` | the prioritisation query as SQL evaluates it, and the two batch writers |
| `Dashboard`, `Sanitiser`, `Prelude` | grouped sums, the recursive conversion to JSON-safe values, shared vocabulary |

Handlers and agents that work step by step are methods with loops or classes
with fields; each is proved equal to a function of its inputs or of the old
state, and the theorems are about that function. Queries and expressions are
functions. For each main operation one theorem states its result in the words of
its inputs alone, with every constant written out (the names end in `Outcome`,
`Meaning` or `Moves`), and the others build on that.

Several things that the code does and a reader of its documentation might not
expect are stated as exact conditions rather than left out:

- A login that still needs its second factor answers with an access token like
  any other, and the requests that replace the factor ask for no more than one
  (with the password, for another secret). So a sign-in is bound to what the
  account held exactly until a replacement is accepted, and a login is enough
  to have one accepted (`SecondFactor.SecondFactorHolds`,
  `SecondFactor.ReplacementOpensIff`, `SecondFactor.LoginReachesReplacement`).
  The docstring of the regeneration handler says that it requires the current
  password (backend/app/api/auth.py:498); the code does not ask for it.
- The unique index on unused invites ignores expiry, so an expired invitation
  blocks its address (`Invites.ExpiredInviteBlocksForever`).
- A password reset and a deactivation commit twice, so tokens outlive them when
  the session store fails in between (`TokenRuns.TokensSurviveOnlyStoreFailure`),
  and a deactivation by PATCH never ends them (`TokenRuns.TokensSurvivePatch`).
- One refused item of a bulk import loses the whole batch, although the loop
  goes on and counts errors: the failed flush has taken the transaction away,
  and the commit fails (`LeadImport.LeadStore.BulkImport`).
- Importing a list twice is refused when it holds an empty status, and otherwise
  changes a lead whose name is an empty string
  (`LeadImport.ReimportRefusedIff`, `LeadImport.ReimportContentIff`).
- A scrape stores nothing of any source when one of them lists a new lead twice,
  or a new lead with a null name (`LeadScrape.ScrapeAll`,
  `LeadScrape.SourcesStandTogether`, `LeadScrape.NullNameLosesBatch`).
- The error of a registry that refuses a report is lost when the draft already
  has content (`LifecycleRows.ReportRow.SubmitToRegistry`).

Run `dafny verify dfyconfig.toml` in this directory to check the whole project.

## Model

| member | source | states |
|---|---|---|
| `AuthService.Service.Login` | backend/app/api/auth.py:224-304 | the stored tables and the reply after a login attempt are those of the login step: a locked account is answered before its password is looked at, a wrong password is counted and from the fifth on locks for thirty minutes from a second clock reading, a right one clears both fields; tokens follow only without a second factor, and otherwise a temporary access token for five minutes |
| `AuthService.Service.VerifyMfa` | backend/app/api/auth.py:310-358 | behind any access token of the account, a second factor is a valid TOTP for the stored secret or a stored backup code; the code is committed as used before tokens are issued, so it is gone even when issuing fails |
| `AuthService.Service.ConfirmMfa` | backend/app/api/auth.py:393-418 | behind any access token of the account, the password and a TOTP for the secret that is brought store that secret, switch the factor on and replace the backup codes, whether or not a factor was on; otherwise nothing changes |
| `AuthService.Service.RegenerateCodes` | backend/app/api/auth.py:493-507 | behind any access token of an account with a second factor, ten new codes replace the stored ones; no password is asked for, although the docstring says so |
| `AuthService.Service.DisableMfa` | backend/app/api/auth.py:463-477 | the factor and its secret go, the backup codes stay |
| `AuthService.Service.ValidateRefreshToken` | backend/app/auth/dependencies.py:206-275 | a token is let through exactly as presented by its owner, live, unexpired and for an account that may act; a token that is not found live revokes its subject's whole family, and every refusal leaves the tables as the refresh step says |
| `AuthService.Service.Refresh` | backend/app/api/auth.py:553-590 | an accepted token is revoked in a commit of its own and then replaced; when the replacement fails the old one is gone |
| `AuthService.Service.Logout` | backend/app/api/auth.py:594-614 | only the presented token is revoked, and only after the session store answered |
| `AuthService.Service.LogoutAll` | backend/app/api/auth.py:627-643 | all live tokens of the caller are revoked, and of nobody else |
| `AuthService.Service.RevokeSession` | backend/app/api/auth.py:677-698 | ending one of one's own sessions revokes all of one's tokens; somebody else's session is refused |
| `AuthService.Service.ForgotPassword` | backend/app/api/auth.py:775-798 | an active account gets one ticket for an hour, replacing any earlier one; the reply is the same for every address |
| `AuthService.Service.ResetPassword` | backend/app/api/auth.py:825-861 | a valid ticket is used up and the lock forgiven in a first commit; tokens are revoked in a second one, which a failing session store prevents |
| `AuthService.Service.ForceLogout` | backend/app/api/users.py:417-434 | an administrator revokes all live tokens of one user |
| `AuthService.Service.Deactivate` | backend/app/api/users.py:215-239 | the account is switched off in a first commit and its tokens revoked in a second; nobody deactivates himself |
| `AuthService.Service.Reactivate` | backend/app/api/users.py:255-271 | the account is active again with its failures forgiven |
| `AuthService.Service.UpdateUser` | backend/app/api/users.py:160-198 | an administrator's PATCH sets the address, if no other account has it, the active flag and the factor flag, and no token; nobody deactivates himself |
| `AuthService.Service.Register` | backend/app/api/auth.py:131-156 | a user is added exactly when neither form of the e-mail hash is taken |
| `AuthService.Service.InviteUser` | backend/app/api/auth.py:878-916 | an invitation row is added under the handler's two checks and the unique indexes behind them |
| `AuthService.Service.AcceptInvite` | backend/app/api/auth.py:933-966 | an open invite adds one user and is marked with time and user in the same commit, or nothing changes |
| `AuthService.Service.RevokeAllOf` | backend/app/auth/dependencies.py:267-275 | exactly the live records of one user are stamped, with one time |
| `AuthService.Service.RevokeOne` | backend/app/api/auth.py:567-590 | one record is stamped if it is live, and no other |
| `AuthService.Service.Issue` | backend/app/api/auth.py:983-1015 | one record for a week under a new hash, or nothing when the session store or the unique index refuses |
| `AuthModel.RemoveFirst` | backend/app/api/auth.py:342-356 | using a code removes exactly one occurrence of its hash |
| `AuthModel.FrameByKind` | backend/app/api/auth.py:174-1015 | an account is never changed by a request that does not name it, and no request removes one |
| `AuthOutcomes.LoginOutcome` | backend/app/api/auth.py:224-304 | for every state: tokens are issued if and only if the user is known, not locked, the password right, no factor on, and the pair can be stored; a temporary access token of five minutes if and only if the same password and lock conditions hold with the factor on; nothing is handed out otherwise |
| `AuthOutcomes.LoginAccount` | backend/app/api/auth.py:226-287 | what a login writes to the account: one more failure, a lock of thirty minutes from the fifth on, or both fields cleared |
| `AuthOutcomes.VerifyOutcome` | backend/app/api/auth.py:310-358 | the second step issues tokens if and only if an unexpired access token leads to an active, unlocked account with a secret, the TOTP or a stored code fits, and the pair can be stored; one occurrence of the code is gone, and nothing else of the account |
| `AuthOutcomes.RefreshOutcome` | backend/app/api/auth.py:553-590 | each answer of a refresh if and only if, on the stored record and account; a token that is not found live ends every session of its subject |
| `AuthOutcomes.RotationOutcome` | backend/app/api/auth.py:567-590 | the presented token is stamped first and the pair, for seven days and fifteen minutes, added after, or not at all |
| `AuthOutcomes.LogoutOutcome` | backend/app/api/auth.py:594-614 | a logout succeeds if and only if the account may act behind its access token and the session store answers; it then stamps the presented token alone |
| `AuthOutcomes.LogoutAllOutcome` | backend/app/api/auth.py:627-643 | the same condition; exactly the live tokens of the caller are stamped |
| `AuthOutcomes.RevokeSessionOutcome` | backend/app/api/auth.py:677-698 | and the session is the caller's own |
| `AuthOutcomes.ForceLogoutOutcome` | backend/app/api/users.py:417-434 | succeeds if and only if the user exists and the session store answers |
| `AuthOutcomes.ForgotOutcome` | backend/app/api/auth.py:775-798 | a ticket for an hour for an active account, and the same answer for every other |
| `AuthOutcomes.ResetOutcome` | backend/app/api/auth.py:825-861 | a reset succeeds if and only if the account is active, the ticket its own and not expired, and the session store answers; without the store the account is reset all the same |
| `AuthOutcomes.DeactivateOutcome` | backend/app/api/users.py:215-239 | when it succeeds, and what each of its two commits writes |
| `AuthOutcomes.ReactivateOutcome` | backend/app/api/users.py:255-271 | when it succeeds, and the whole new state |
| `AuthOutcomes.UpdateOutcome` | backend/app/api/users.py:160-198 | when a PATCH is accepted, and that exactly the given fields change |
| `AuthOutcomes.ConfirmOutcome` | backend/app/api/auth.py:393-418 | when a confirmation is accepted, and the whole new state |
| `AuthOutcomes.RegenerateOutcome` | backend/app/api/auth.py:493-507 | when new codes are accepted, and the whole new state |
| `AuthOutcomes.DisableOutcome` | backend/app/api/auth.py:463-477 | when the factor is removed, and the whole new state |
| `AuthOutcomes.RegisterOutcome` | backend/app/api/auth.py:131-156 | when a user is added, and the account with which he starts |
| `AuthOutcomes.InviteOutcome` | backend/app/api/auth.py:892-916 | when an invitation is added, and its week |
| `AuthOutcomes.AcceptOutcome` | backend/app/api/auth.py:939-966 | when an invitation is accepted, and both rows that it writes |
| `AuthOutcomes.AccessNeedsPassword` | backend/app/api/auth.py:224-358 | in every run a user who starts without any token holds one only after a login of his with the right password on an account that was not locked |
| `AuthOutcomes.LoginsThatAdmit` | backend/app/api/auth.py:250-304 | in every run each login that hands anything out had the right password |
| `Lockout.LockFieldsFrame` | backend/app/api/auth.py:226-287 | of all eighteen requests by anyone, only a wrong password, a right one, a reset and a reactivation move the failure counter or the lock, and how |
| `Lockout.LockedMeansNoCheck` | backend/app/api/auth.py:226-240 | a login is answered "locked" with no change exactly while the lock runs |
| `Lockout.StepKeepsLockCoherent` | backend/app/api/auth.py:255-287 | every request keeps: five failures or more if and only if a lock time is stored |
| `Lockout.RunKeepsLockCoherent` | backend/app/api/auth.py:255-287 | so does every run |
| `Lockout.WrongCheckSpendsBudget` | backend/app/api/auth.py:255-287 | each wrong password costs one of the checks that still fit before a given time |
| `Lockout.ChecksWithinBudget` | backend/app/api/auth.py:226-287 | over any run without forgiveness the wrong checks fit in the budget of the account's present state |
| `Lockout.LockoutRateBound` | backend/app/api/auth.py:226-287 | from any state, in any interleaving with a clock that never goes back and no forgiving event, a span T sees at most 5 + floor(T / 30 min) logins of one account whose password is compared and wrong |
| `Lockout.LockoutRateBoundIsTight` | backend/app/api/auth.py:255-287 | for every number of lockout periods some run attains the bound |
| `TokenRuns.TokenTableWrite` | backend/app/api/auth.py:553-1015 | every request writes to the token table in one shape: the named live records are stamped, at most one live record is new, and nothing else changes |
| `TokenRuns.RevokedForever` | backend/app/api/auth.py:567-590 | `revoked_at` is write-once: a revoked record never changes again, in any run |
| `TokenRuns.RotatedAtMostOnce` | backend/app/api/auth.py:553-590 | in every run each token is traded in at most once |
| `TokenRuns.ReplayEndsEverySession` | backend/app/auth/dependencies.py:225-275 | whatever happens in between, presenting a revoked token is reported as reuse and leaves its subject without a live token |
| `TokenRuns.RecordsKeepExpiry` | backend/app/api/auth.py:996-1015 | a record keeps its owner and expiry in every run |
| `TokenRuns.RotatedWithinAWeek` | backend/app/api/auth.py:983-1015 | no token is traded in more than seven days after it was issued, or for another user |
| `TokenRuns.LiveAfter` | backend/app/api/auth.py:553-1015 | the live set of any user after any request |
| `TokenRuns.SignInAddsOne` | backend/app/api/auth.py:983-1015 | a sign-in adds exactly one live token, to its own user |
| `TokenRuns.RotationKeepsCount` | backend/app/api/auth.py:567-590 | a rotation keeps every user's number of live tokens, and loses one exactly when the new pair cannot be issued |
| `TokenRuns.LogoutRemovesAtMostOne` | backend/app/api/auth.py:605-614 | a logout removes at most one live token, the presented one |
| `TokenRuns.BulkRevocationEmptiesOneUser` | backend/app/api/auth.py:637-698 | logout-all, session revocation, reset, forced logout, deactivation and a replay leave their user with no live token and every other user's set as it was |
| `TokenRuns.OnlySignInsAdd` | backend/app/api/auth.py:553-1015 | no other request gives any user more live tokens |
| `TokenRuns.TokensSurviveOnlyStoreFailure` | backend/app/api/auth.py:846-861 | after an accepted reset or deactivation tokens are left exactly when the session store failed between the two commits and there were any |
| `TokenRuns.TokensSurvivePatch` | backend/app/api/users.py:160-198 | a live token of an account that a PATCH deactivates is refused meanwhile and traded in again after the reactivation |
| `TokenRuns.TokensSurviveDeactivationIff` | backend/app/api/users.py:215-239 | after a deactivation by the endpoint of that name it is traded in again exactly when the session store had failed |
| `TokenRuns.LiveTokensComeFromSignIns` | backend/app/api/auth.py:983-1015 | over any run live tokens grow by no more than the sign-ins |
| `TokenRuns.OneLiveTokenPerSignIn` | backend/app/api/auth.py:567-590 | over any run each sign-in has at most one live descendant under rotation |
| `TokenRuns.EveryStateStartsLinear` | backend/app/api/auth.py:567-590 | any stored table can start such a run |
| `SecondFactor.StoredCodes` | backend/app/api/auth.py:342-356 | the stored list of codes changes by generation and by an accepted code only, and how |
| `SecondFactor.CodesAfter` | backend/app/api/auth.py:342-356 | an accepted code loses exactly one occurrence; a generation leaves ten |
| `SecondFactor.CodesConserved` | backend/app/api/auth.py:342-356 | between two generations accepted codes plus remaining codes are, occurrence by occurrence, the codes at the start |
| `SecondFactor.TenCodesInAll` | backend/app/api/auth.py:409-416 | from a generation on accepted plus remaining is ten, and no code is accepted more often than it was generated |
| `SecondFactor.BearersAfter` | backend/app/api/auth.py:290-301 | a login that still needs its second factor, a token pair, and nothing else hand out an access token |
| `SecondFactor.BearersComeFromAdmissions` | backend/app/auth/dependencies.py:48-101 | access tokens are neither forged nor revoked: over any run those of a user are the ones at the start until some request hands out another |
| `SecondFactor.SecondStepNeedsFirst` | backend/app/api/auth.py:310-329 | from a state without an access token of the user no run signs an account in that needs a second factor before a login with the right password, or a rotation, has handed one out |
| `SecondFactor.FactorFrame` | backend/app/api/auth.py:393-477 | of the eighteen requests only a confirmation, a removal and an administrator's PATCH move the second factor, and only a confirmation with a right password and TOTP brings a secret |
| `SecondFactor.SignInPresentsFactor` | backend/app/api/auth.py:289-358 | an account with a second factor is signed in only by the second step, behind an access token of its own, with a TOTP for the stored secret or a stored code that is used up |
| `SecondFactor.SecondFactorHolds` | backend/app/api/auth.py:289-358 | in every run in which the factor is not turned off, confirmed anew or given new codes, every sign-in presents a TOTP for the secret of the start or uses up a code of the start, and all codes used up are codes of the start, occurrence by occurrence |
| `SecondFactor.UnheldSignInIff` | backend/app/api/auth.py:310-358 | in any state and against any earlier one, a sign-in that presents nothing held then exists if and only if the second step is open and the account has a factor that it did not have then |
| `SecondFactor.ReplacementAcceptedIff` | backend/app/api/auth.py:386-507 | a request to replace the factor is accepted if and only if it is authenticated: whoever presents the access token need not present the factor |
| `SecondFactor.ReplacementOpensIff` | backend/app/api/auth.py:386-507 | the converse, for every state and request: afterwards a sign-in that presents nothing held before exists if and only if the request was an accepted confirmation or generation that brought another secret or another code |
| `SecondFactor.TemporaryTokenAuthenticates` | backend/app/auth/dependencies.py:48-101 | the temporary access token of a login authenticates its account like any other until it expires |
| `SecondFactor.LoginReachesReplacement` | backend/app/api/auth.py:289-507 | so, in every state, a login with the right password is enough: the replacement is accepted with the temporary token, the factor stays on, and a sign-in follows that presents nothing held at the start |
| `SecondFactor.LoginReachesReplacementHere` | backend/app/api/auth.py:289-507 | a concrete account for which it does, by new codes and by another secret |
| `PasswordReset.TicketFrame` | backend/app/api/auth.py:786-852 | a ticket appears only by being issued, for an hour, and a reset uses it up |
| `PasswordReset.TicketUsedAtMostOnce` | backend/app/api/auth.py:831-852 | in every run in which it is not issued again a reset link works at most once |
| `PasswordReset.ResetWithinAnHour` | backend/app/api/auth.py:786-852 | in every run a password is reset only within an hour of a request of the run that issued the ticket, unless it was held at the start |
| `Invites.StepKeepsConsistent` | backend/app/models.py:260-289 | every request keeps e-mail hashes distinct among users and among unused invites, and each used invite points at a user of its own |
| `Invites.RunKeepsConsistent` | backend/app/models.py:260-289 | so does every run |
| `Invites.InvitationCreatedIff` | backend/app/api/auth.py:892-916 | an invitation is created if and only if nobody has the address and no unused invite does, expired or not; where only an expired one is in the way the handler's check passes and the index refuses |
| `Invites.AcceptedAtMostOnce` | backend/app/api/auth.py:939-966 | in every run an invite creates at most one user |
| `Invites.AcceptedWithinAWeek` | backend/app/api/auth.py:903-966 | whatever happens in between, an invite is accepted only within seven days of its creation, and the account it creates has the invited address and is recorded as its user |
| `Invites.UsersCounted` | backend/app/api/auth.py:131-966 | users after a run are the users before plus the registrations and acceptances that succeeded |
| `Invites.DeadEndStays` | backend/app/api/auth.py:892-966 | no later request moves an expired unused invite |
| `Invites.DeadEndRefuses` | backend/app/api/auth.py:892-966 | and none invites or accepts anyone for its address |
| `Invites.ExpiredInviteBlocksForever` | backend/app/models.py:289 | once an unused invite has expired, no run creates or accepts an invitation for that address again |
| `StatusMachine.PatchClimbs` | backend/app/api/projects.py:27-36 | for any map whose edges raise a rank with `rejected` on top, an accepted change raises the rank |
| `StatusMachine.RunClimbs` | backend/app/api/projects.py:27-36 | over any run of such a map rank grows by at least the number of changes, stays within the top, changes happen exactly when the status moved, and `rejected` is never left |
| `StatusMachine.PatchRow` | backend/app/api/projects.py:109-117 | nothing is stored unless the payload's status is known and accepted; otherwise each payload field has the payload's value and every other field its old one |
| `Lifecycles.ProjectClimbs` | backend/app/api/projects.py:17-24 | the project map climbs |
| `Lifecycles.ProjectStagesInOrder` | backend/app/api/projects.py:17-36 | a run not ending in rejection made exactly one change for each stage between its ends |
| `Lifecycles.ProjectChangesBound` | backend/app/api/projects.py:17-36 | PATCH requests change the status of an onboarding project at most seven times |
| `Lifecycles.CalculationClimbs` | backend/app/api/calculations.py:34-44 | the calculation map climbs |
| `Lifecycles.DecidedStaysDecided` | backend/app/api/calculations.py:386-394 | with the approval endpoint in play no run leaves approved or rejected, taken together |
| `Lifecycles.RejectionReopenedIff` | backend/app/api/calculations.py:386-394 | a rejected calculation leaves rejection in some prefix of a run if and only if the run holds an approval with a validated source |
| `Lifecycles.ReportClimbs` | backend/app/api/reports.py:28-47 | the report map climbs |
| `Lifecycles.ClosedStaysClosed` | backend/app/api/reports.py:28-47 | with submission in play no run leaves approved-by-VVB or rejected, and rejection alone is final |
| `Lifecycles.VvbApprovalNeedsSubmission` | backend/app/api/reports.py:281-317 | every run that ends in VVB approval and did not begin there was submitted on the way |
| `Lifecycles.ReportChangesBound` | backend/app/api/reports.py:281-317 | status changes are at most five plus three for each refusal by a registry, the only step down |
| `Lifecycles.ReportRestsOnDecision` | backend/app/api/reports.py:75-86 | no run over both rows leaves a report on a calculation that is a draft or under review |
| `Lifecycles.ProjectMoves` | backend/app/api/projects.py:17-36 | the accepted pairs of project statuses, one by one, as an if and only if |
| `Lifecycles.CalculationMoves` | backend/app/api/calculations.py:34-44 | the accepted pairs of calculation statuses, and what an approval does from each |
| `Lifecycles.ReportMoves` | backend/app/api/reports.py:28-47 | the accepted pairs of report statuses, and what a submission does from each |
| `Lifecycles.CaseMoves` | backend/app/api/reports.py:75-86 | creation needs an approved calculation, and a submission one that is still approved |
| `LifecycleRows.CalculationRow.PatchFields` | backend/app/api/calculations.py:123-139 | a PATCH moves the stored status as the step of the run theorems says |
| `LifecycleRows.CalculationRow.ApproveRun` | backend/app/api/calculations.py:366-394 | approval needs a validated source and a status other than approved, writes status and approver, and nothing else |
| `LifecycleRows.ReportRow.PatchFields` | backend/app/api/reports.py:124-140 | a PATCH moves the stored status as the step of the run theorems says |
| `LifecycleRows.ReportRow.SubmitToRegistry` | backend/app/api/reports.py:262-319 | submission needs an approved report, an approved calculation and a known registry; a refusal goes back to draft, and its error is stored if and only if the draft's document was missing or empty, since a dictionary edited in place is no change to the session |
| `Methodology.Session.UpdateStatus` | backend/app/api/methodology_generator.py:175-207 | although the status is assigned before the last check, the stored row is that of a step that refuses first, because the session rolls back |
| `Methodology.Session.AnalyzeFit` | backend/app/api/methodology_generator.py:110-135 | the gap analysis alone is replaced, in any status |
| `Methodology.Session.GenerateDraft` | backend/app/api/methodology_generator.py:138-171 | the text is replaced only when a stored analysis found no methodology that fits |
| `Methodology.VerdictsAccountable` | backend/app/api/methodology_generator.py:188-207 | in every run a stored verdict has a reviewer and a time, and a negative one a non-empty reason |
| `Methodology.StatusMoves` | backend/app/api/methodology_generator.py:27-31 | the stored status moves only along an edge and only by an update |
| `Methodology.VerdictsAreFinal` | backend/app/api/methodology_generator.py:27-31 | approval and rejection, with their reason, reviewer and time, survive every run |
| `Methodology.ReviewsBalance` | backend/app/api/methodology_generator.py:27-31 | over every run, entries into review and revision requests balance up to the round that is open at each end |
| `Methodology.FromCreation` | backend/app/api/methodology_generator.py:27-31 | from creation, entries into review are the revision requests plus one if the status is under review, approved or rejected |
| `Methodology.ReviewEdges` | backend/app/api/methodology_generator.py:27-31 | the edges of the review, one by one, as an if and only if |
| `Methodology.UpdateOutcome` | backend/app/api/methodology_generator.py:175-207 | each answer of an update if and only if, and the whole row that it leaves |
| `Methodology.DraftOutcome` | backend/app/api/methodology_generator.py:110-171 | each answer of a generation if and only if, and the whole row that it leaves |
| `Methodology.TextNeedsGap` | backend/app/api/methodology_generator.py:138-171 | a text exists only because an earlier moment of the run had an analysis that found no fit |
| `Methodology.ApprovedTextChangesIff` | backend/app/api/methodology_generator.py:138-171 | the text of an approved methodology is rewritten exactly by an allowed generation that brings another text |
| `DeployGate.DailyMinScores` | backend/scripts/pre_deploy_check.py:56-75 | the loop builds the daily map, and fails exactly when a dated snapshot has no score |
| `DeployGate.DayOfMeaning` | backend/scripts/pre_deploy_check.py:68-71 | a snapshot's day is the UTC day that holds its instant, which is the local time less the offset |
| `DeployGate.DailyMinsMeaning` | backend/scripts/pre_deploy_check.py:56-75 | a day has an entry if and only if a snapshot falls on it; the entry is attained and is the minimum |
| `DeployGate.DailyMinsConcat` | backend/scripts/pre_deploy_check.py:56-75 | joining histories takes the lower score of each day |
| `DeployGate.DailyStreak` | backend/scripts/pre_deploy_check.py:78-92 | the backward walk terminates and counts the bad days that end today |
| `DeployGate.StreakMeaning` | backend/scripts/pre_deploy_check.py:78-92 | n is the streak if and only if the n days ending today each hold a snapshot below 90 and the day before does not |
| `DeployGate.StreakBounded` | backend/scripts/pre_deploy_check.py:78-92 | the streak is at most the number of days with a snapshot |
| `DeployGate.StreakMonotone` | backend/scripts/pre_deploy_check.py:78-92 | more bad days never shorten it |
| `DeployGate.StreakIgnoresOrder` | backend/scripts/pre_deploy_check.py:78-92 | permuting the history does not change it |
| `DeployGate.StreakAfterSnapshot` | backend/scripts/pre_deploy_check.py:78-92 | a further snapshot never shortens it, and one at or above 90 does not change it |
| `DeployGate.JourneyReasons` | backend/scripts/pre_deploy_check.py:126-144 | exactly the journeys with failures, or with no completed run, are named |
| `DeployGate.EvaluateGate` | backend/scripts/pre_deploy_check.py:95-146 | the answer holds exactly the reasons that apply, the gate raises exactly on a dated snapshot without a score, and it answers with no reason exactly when the deploy passes |
| `DeployGate.PassesIff` | backend/scripts/pre_deploy_check.py:95-146 | a deploy passes if and only if every dated snapshot has a score, the system score reaches 90, there are snapshots, one of the last seven days has no bad snapshot, and every journey ran without failure |
| `HealthScore.RoundsUpToEven` | backend/app/api/escalations.py:229 | Python's rounding reaches an even number exactly from half a unit below it |
| `HealthScore.ComputeHealthScore` | backend/app/api/escalations.py:113-229 | the components collected step by step and the rounded mean over the weights that are present |
| `HealthScore.AddRate` | backend/app/api/escalations.py:177-207 | a rate is added exactly when it has something to count |
| `HealthScore.RateMeaning` | backend/app/api/escalations.py:172-207 | a rate is within 0.05 of the percentage of good attempts among the good and bad ones since the cutoff, 100 without a bad one, 0 without a good one, and missing without either |
| `HealthScore.SuccessNeverLowers` | backend/app/api/escalations.py:172-207 | a further success since the cutoff never lowers it |
| `HealthScore.MeanMeaning` | backend/app/api/escalations.py:122-132 | the mean confidence is within 0.05 of the percentage of what the decisions since the cutoff state |
| `HealthScore.CountersMeaning` | backend/app/api/escalations.py:135-161 | open escalations by priority, waiting reviews, and the counts by status and priority are numbers of rows |
| `HealthScore.RoundsToNearest` | backend/app/api/escalations.py:229 | rounding is to the nearest integer, and to the even one of two |
| `HealthScore.ScoreMeaning` | backend/app/api/escalations.py:113-229 | the score is the nearest integer to the mean of the components that are there, with weights 0.3, 0.3, 0.2, 0.1 and 0.1 and windows of a day and a week, from rows of the tables |
| `HealthScore.EscalationStats` | backend/app/api/escalations.py:81-109 | every counter ends as the number of events it stands for, including priorities the endpoint did not expect |
| `HealthScore.StatusesConserve` | backend/app/api/escalations.py:81-109 | the three statuses partition the events |
| `HealthScore.WeightedPlusDeficit` | backend/app/api/escalations.py:211-229 | weighted scores and weighted shortfalls add up to a hundred per weight |
| `HealthScore.ReachesThresholdIff` | backend/app/api/escalations.py:223-229 | for any components a score of 90 is a weighted shortfall of at most 10.5 per unit of weight |
| `HealthScore.ComponentSums` | backend/app/api/escalations.py:119-229 | the two sums in terms of the tables |
| `HealthScore.ScoresArePercentages` | backend/app/api/escalations.py:119-207 | every component score is between 0 and 100 |
| `GateBound.ThresholdIff` | backend/app/api/escalations.py:211-229 | the score reaches the gate's 90 if and only if backlog, queue and the optional shortfalls stay within 10.5 per unit of weight present |
| `GateBound.OptionalRange` | backend/app/api/escalations.py:211-229 | whatever is present, the optional components weigh at most a half and never help a backlog |
| `GateBound.BacklogBound` | backend/app/api/escalations.py:134-161 | a score of 90 implies 0.3(25 P0 + 10 P1 + 2 P2) + depth <= 10.5, whichever optional components are present and whatever their values |
| `GateBound.BacklogBoundIsSharp` | backend/app/api/escalations.py:134-229 | with all optional components perfect the bound is exact |
| `GateBound.BacklogBlocksDeploy` | backend/scripts/pre_deploy_check.py:103-110 | two open P0 escalations or eleven waiting reviews block every deploy |
| `Confidence.BlendBetween` | backend/app/agents/base.py:120-131 | a blend is a score and lies between its clamped parts |
| `Confidence.BlendMeaning` | backend/app/agents/base.py:120-131 | a reply weighs six tenths and the heuristic four, each brought into 0 to 1; without a reply the heuristic is all |
| `Confidence.TiersReachable` | backend/app/agents/base.py:194-201 | which tiers no reply, some reply and every reply can reach, by the heuristic alone |
| `Confidence.BlendMonotone` | backend/app/agents/base.py:120-131 | blending is monotone in both parts |
| `Confidence.ReachableByReply` | backend/app/agents/base.py:120-131 | for every threshold, some reply lifts the blend to it if and only if 0.4 times the heuristic plus 0.6 reaches it; no reply asks for the heuristic itself |
| `Confidence.AutoAdvanceNeedsHeuristic` | backend/app/agents/base.py:194-201 | a heuristic below 0.875 never advances by itself, for any reply |
| `QualityControl.FencesCut` | backend/app/agents/quality_control_agent.py:245-257 | on an ascending list the values outside two fences are a prefix and a suffix |
| `QualityControl.OutliersAreTheEnds` | backend/app/agents/quality_control_agent.py:245-257 | the outliers are the two ends of the sorted sample and reach neither quartile position |
| `QualityControl.OutlierMeaning` | backend/app/agents/quality_control_agent.py:245-257 | a value is an outlier, as often as it occurs, if and only if it is further than one and a half interquartile ranges from the values at a quarter and three quarters of the ascending order |
| `QualityControl.FewHaveNone` | backend/app/agents/quality_control_agent.py:248-249 | fewer than four samples have none |
| `QualityControl.OutliersAreAMinority` | backend/app/agents/quality_control_agent.py:245-260 | for every sample the outliers are at most (n-1)/2 |
| `QualityControl.MinorityIsTight` | backend/app/agents/quality_control_agent.py:245-260 | five values with two outliers attain it |
| `QualityControl.OutliersDependOnMultiset` | backend/app/agents/quality_control_agent.py:245-257 | the order of sampling does not matter |
| `QualityControl.OutliersCommuteWithUnits` | backend/app/agents/quality_control_agent.py:245-257 | shifting and positive scaling commute with the outlier test |
| `QualityControl.ReadFields` | backend/app/agents/quality_control_agent.py:202-231 | the inner loop keeps the running totals those of the fields read, and stops exactly on a value that is not a number |
| `QualityControl.SampleDataPoints` | backend/app/agents/quality_control_agent.py:185-243 | the three loops compute the statistics of the sampled fields, and raise exactly when one of them is not a number |
| `QualityControl.SampledMeaning` | backend/app/agents/quality_control_agent.py:196-231 | how many fields are sampled: three of ten calculations, two of ten sources, one of fifty surveys, at most |
| `QualityControl.SampledCalcs` | backend/app/agents/quality_control_agent.py:202-208 | the three fields of each calculation, by position |
| `QualityControl.SampledSources` | backend/app/agents/quality_control_agent.py:213-220 | the two fields of each source, by position |
| `QualityControl.SampledSurveys` | backend/app/agents/quality_control_agent.py:226-231 | the one field of each survey, by position |
| `QualityControl.NullsMeaning` | backend/app/agents/quality_control_agent.py:202-231 | the null count is the number of fields without a value |
| `QualityControl.ValuesMeaning` | backend/app/agents/quality_control_agent.py:202-231 | each number is a sample as often as it was read |
| `QualityControl.NullsPlusSamples` | backend/app/agents/quality_control_agent.py:185-243 | null count plus numeric samples is the sample size |
| `QualityControl.HeuristicRange` | backend/app/agents/quality_control_agent.py:54-61 | pass rate in [0,1], heuristic in [0.6,1], for all counts |
| `QualityControl.HeuristicMeaning` | backend/app/agents/quality_control_agent.py:54-61 | six tenths, and four tenths of the share of fields that neither were missing nor outliers nor flagged |
| `QualityControl.ConfidenceMeaning` | backend/app/agents/quality_control_agent.py:86-92 | the confidence for every reply |
| `QualityControl.HeuristicAboveIff` | backend/app/agents/quality_control_agent.py:54-61 | the heuristic exceeds 0.8 if and only if fewer than half of the fields failed |
| `QualityControl.CleanSampleExceeds` | backend/app/agents/quality_control_agent.py:54-61 | with no nulls and no flags the heuristic exceeds 0.8, whatever the data |
| `QualityControl.ConfidenceRange` | backend/app/agents/quality_control_agent.py:86-92 | the blended confidence for every reply |
| `QualityControl.AutoAdvanceNeedsCleanSample` | backend/app/agents/base.py:194-201 | for every reply automatic advance means at most five sixteenths of the fields failed |
| `Ingestion.ValidateUpload` | backend/app/agents/ingestion_agent.py:241-266 | the anomalies of one upload |
| `Ingestion.DetectDuplicates` | backend/app/agents/ingestion_agent.py:268-287 | with the dictionary of first names, one anomaly for each upload that repeats an earlier non-empty hash, naming the first |
| `Ingestion.DuplicatesIff` | backend/app/agents/ingestion_agent.py:268-287 | an upload is flagged if and only if an earlier one has the same non-empty hash |
| `Ingestion.DuplicatesConserved` | backend/app/agents/ingestion_agent.py:268-287 | flagged plus distinct hashes is the number of uploads with a hash |
| `Ingestion.DetectOutOfRange` | backend/app/agents/ingestion_agent.py:289-301 | the implausible numbers of one source, in order |
| `Ingestion.CheckUploads` | backend/app/agents/ingestion_agent.py:80-91 | three counters and the uploads' anomalies |
| `Ingestion.CheckSources` | backend/app/agents/ingestion_agent.py:97-112 | flagged sources and their implausible values |
| `Ingestion.FindStale` | backend/app/agents/ingestion_agent.py:115-145 | uploads and sources that wait seven days or more |
| `Ingestion.Run` | backend/app/agents/ingestion_agent.py:41-237 | the agent's status, confidence, counters and anomalies for any reply |
| `Ingestion.RunMeaning` | backend/app/agents/ingestion_agent.py:41-237 | counters, confidence and status of every run, for every reply, from the uploads' statuses and the number of anomalies: a numeric severity, brought into 0 to 1, counts against the run for six tenths, and nothing else in a reply does |
| `Ingestion.ReviewMeaning` | backend/app/agents/ingestion_agent.py:303-311 | what each kind of reply makes of the heuristic |
| `Ingestion.HeuristicMeaning` | backend/app/agents/ingestion_agent.py:147-159 | completeness and penalty, from the uploads' statuses |
| `Ingestion.AnomaliesIff` | backend/app/agents/ingestion_agent.py:79-145 | an anomaly is in the list if and only if the uploads and sources warrant it, for all eight kinds |
| `Ingestion.AnomaliesOnce` | backend/app/agents/ingestion_agent.py:79-145 | no anomaly is listed twice |
| `Ingestion.AnomaliesCounted` | backend/app/agents/ingestion_agent.py:79-145 | so the list is as long as there are warranted anomalies |
| `Ingestion.UploadsConserved` | backend/app/agents/ingestion_agent.py:80-88 | each upload is in exactly one of the three counters |
| `Ingestion.CompletedIsSound` | backend/app/agents/ingestion_agent.py:147-228 | for every reply a completed run has no failed upload, at most three anomalies and processed/total >= 0.625 + 0.1 per anomaly, 0.85 with no usable reply |
| `Ingestion.CompletableIff` | backend/app/agents/ingestion_agent.py:147-228 | some reply completes the run if and only if nothing failed and the heuristic is at least 0.625; the fallback if and only if 0.85 |
| `Ingestion.CompletedHasFewDuplicates` | backend/app/agents/ingestion_agent.py:225-287 | a completed run has at most three uploads beyond its distinct contents |
| `Validation.CollectRedFlags` | backend/app/agents/validation_agent.py:317-362 | the flags raised for equal record counts, a missing run and negative leakage |
| `Validation.FlagsRaisedIff` | backend/app/agents/validation_agent.py:317-362 | each of the three flags is raised if and only if its own condition holds of the stored counts and the latest run, at most once, and no other flag is |
| `Validation.FlagDetails` | backend/app/agents/validation_agent.py:317-362 | what each raised flag tells |
| `Validation.AccumulateRates` | backend/app/agents/validation_agent.py:71-81 | the loop's totals over the sources |
| `Validation.RatesMeaning` | backend/app/agents/validation_agent.py:243-274 | outliers and gaps are numbers of sources, and the total the sum of the stored counts |
| `Validation.ChecksMeaning` | backend/app/agents/validation_agent.py:277-315 | the four additionality checks, from the project's fields |
| `Validation.HeuristicMeaning` | backend/app/agents/validation_agent.py:77-83 | the heuristic, from sources and project |
| `Validation.ReviewMeaning` | backend/app/agents/validation_agent.py:146-153 | what each kind of reply makes of it |
| `Validation.Run` | backend/app/agents/validation_agent.py:46-214 | the agent's status, confidence and surviving flags for any reply |
| `Validation.RunMeaning` | backend/app/agents/validation_agent.py:46-214 | status and confidence of every run, for every reply, from the stored counts, the project's fields and the raised flags |
| `Validation.CompletesIff` | backend/app/agents/validation_agent.py:206 | a run completes if and only if outliers and gaps are few and every warranted flag is dismissed by its id or its text |
| `Validation.OutliersAreHeavy` | backend/app/agents/validation_agent.py:243-274 | each outlier brings more than 100000 records |
| `Validation.OutlierRateTiny` | backend/app/agents/validation_agent.py:249-252 | for non-negative counts the outlier rate is below 1/100000 |
| `Validation.CompletedIff` | backend/app/agents/validation_agent.py:206 | so a run with data completes if and only if fewer than a tenth of the sources have a gap and no flag survives |
| `Validation.UndismissedMeaning` | backend/app/agents/validation_agent.py:131-144 | dismissal keeps a subsequence with exactly the flags that neither id nor detail dismisses |
| `Validation.SurvivorsMeaning` | backend/app/agents/validation_agent.py:131-144 | for every reply; all flags survive a fallback or an unusable list |
| `Validation.SurvivorCapsTheRun` | backend/app/agents/validation_agent.py:155-206 | for every reply a survivor means confidence at most 0.9, no automatic advance, and a queued run |
| `Validation.HeuristicNeedsAdditionality` | backend/app/agents/validation_agent.py:277-315 | a heuristic of 0.875 needs three of the four additionality checks |
| `Validation.ConfirmationLowersScore` | backend/app/agents/validation_agent.py:146-153 | confirming any flag scores the review at most 0.75 |
| `Validation.AutoAdvanceImplies` | backend/app/agents/validation_agent.py:131-206 | for every reply automatic advance implies no survivor, a heuristic of 0.875, three additionality checks and no confirmed flag |
| `LeadQuery.GroupsMeaning` | backend/app/api/leads.py:97-107 | the aggregate has one group for a lead with documents, with its counts, and none otherwise |
| `LeadQuery.LatestIsFirst` | backend/app/api/leads.py:109-119 | row number one of a partition is the first audit in the window's order |
| `LeadQuery.FirstIsNewest` | backend/app/api/leads.py:109-119 | which is the newest of the lead, and missing exactly when it has none |
| `LeadQuery.OneRowPerLead` | backend/app/api/leads.py:121-138 | both joins together give each lead exactly one row |
| `LeadQuery.QueryRefinesPerLead` | backend/app/api/leads.py:97-141 | on all tables the joined query equals one pass that counts and looks up for each lead |
| `LeadQuery.PerLeadMeaning` | backend/app/api/leads.py:121-141 | the pass lists exactly the pending, undismissed leads of the wanted registry, each with its own figures |
| `LeadQuery.AnswerMeaning` | backend/app/api/leads.py:79-144 | any answer the database may give: each wanted lead at most once with its own figures, highest scores first, and a lead is dropped only behind a full limit of scores at least as high |
| `LeadQuery.CountsMeaning` | backend/app/api/leads.py:97-107 | both counts are numbers of the lead's documents |
| `LeadQuery.ViewMeaning` | backend/app/api/leads.py:79-144 | the same in the words of the tables: leads of the three pending stages, not dismissed and of the registry asked for, each once, with numbers of documents and the newest audit, by falling score; one is missing only behind a full limit |
| `LeadImport.BatchKeepsUnique` | backend/app/api/leads.py:231-308 | after a batch that commits keys are unique, no row is gone and rows are added only by its items |
| `LeadImport.BatchLeavesOthers` | backend/app/api/leads.py:231-308 | a row that no item names is untouched |
| `LeadImport.BatchUpdates` | backend/app/api/leads.py:243-253 | a stored lead that an item of a batch that commits names is updated by it alone |
| `LeadImport.BatchPresence` | backend/app/api/leads.py:231-308 | after a batch that commits a key is stored if and only if it was or an item names it |
| `LeadImport.BatchCreates` | backend/app/api/leads.py:254-267 | an item with a new key adds its own row |
| `LeadImport.AcceptableIff` | backend/app/models.py:1470-1486 | the columns take the row that an item writes if and only if its name has at most 500 characters, a new id at most 255, and its status, unless empty for a new lead, is one of the nine |
| `LeadImport.StorableMeaning` | backend/app/models.py:1470-1486 | the limits and the nine statuses, written out |
| `LeadImport.ImportedUpdate` | backend/app/api/leads.py:243-253 | after a batch that commits, a stored lead has the item's name, link and status where it gives them, and is otherwise as it was |
| `LeadImport.ImportedCreation` | backend/app/api/leads.py:254-267 | and a new key has a row of its own, field by field |
| `LeadImport.ReimportAddsNone` | backend/app/api/leads.py:231-308 | after a batch each item has one lead and the same batch adds none |
| `LeadImport.ReimportRefusedIff` | backend/app/api/leads.py:243-267 | without an outage a list that was imported is refused the second time if and only if it gives some item an empty status |
| `LeadImport.CreateThenUpdateIff` | backend/app/api/leads.py:243-267 | creating and then updating from one item changes nothing if and only if its name is not an empty string that creation replaced |
| `LeadImport.ReimportContentIff` | backend/app/api/leads.py:231-308 | importing the list again leaves a lead's content alone if and only if the lead was there before or its item is of that kind |
| `LeadImport.LengthTellsDistinct` | backend/app/api/leads.py:228-230 | the length test recognises repeated ids |
| `LeadImport.LeadStore.Load` | backend/app/api/leads.py:232-238 | the dictionary holds exactly the stored leads of the batch |
| `LeadImport.LeadStore.FlushItem` | backend/app/api/leads.py:243-271 | for each item the flush goes through if and only if none before it failed and the item is not refused; then the transaction is the table of one more item on its own |
| `LeadImport.LeadStore.ImportItems` | backend/app/api/leads.py:241-283 | after the loop the session still has its transaction if and only if no item is refused, queued and errors add up to the items, and created counts the new ones |
| `LeadImport.LeadStore.BulkImport` | backend/app/api/leads.py:209-308 | the table changes if and only if the ids are distinct, no item is refused and the commit goes through, and is then the table of looking each lead up on its own; every response has no errors, created and updated add up to the items, created counts the new ones, and each queued id names its item's lead |
| `LeadImport.BadStatusLosesBatch` | backend/app/api/leads.py:241-285 | two new leads, one with a bad status: by the condition of the import the first alone is stored, and of both together nothing is |
| `LeadScrape.UniqueIffNoNewRepeats` | backend/app/models.py:1467 | the staged rows satisfy the constraint if and only if no key new to the table is repeated |
| `LeadScrape.SoundIffCommittable` | backend/app/models.py:1467-1486 | the schema takes the staged rows if and only if every record has an id and can be read, no new key is repeated, and the columns take each stored lead as the records leave it and each new one: id, name, status, developer, country, region, methodology and sector; a null name of a new lead is refused, a missing one is empty |
| `LeadScrape.StageSource` | backend/app/api/leads.py:513-594 | one source's loop rewrites stored leads, which keep what a record leaves out or gives as null, and adds a row for each record that was not stored; it fails only on a record without a usable id or with an illegible field |
| `LeadScrape.ScrapeAll` | backend/app/api/leads.py:492-616 | the scrape commits if and only if its records satisfy that condition and the database answers; then each stored lead is rewritten by its records in order and each new record has its row, with the counters to match; otherwise nothing is stored |
| `LeadScrape.ScrapedRows` | backend/app/api/leads.py:544-594 | what a committed scrape leaves: each name, link, status and further column of a stored lead is the text of the last record about it that gives one, or what it had; each new record has its row, field by field; there is no other row |
| `LeadScrape.CommittableMeaning` | backend/app/api/leads.py:508-616 | the condition of the commit, in the words of the records |
| `LeadScrape.SourcesStandTogether` | backend/app/api/leads.py:508-616 | the scrape of several sources commits exactly when each source alone would |
| `LeadScrape.RepeatedNewIdLosesBatch` | backend/app/api/leads.py:508-616 | a concrete batch for which the commit fails: a new lead listed twice |
| `LeadScrape.NullNameLosesBatch` | backend/app/api/leads.py:552-575 | a single record with a null name commits if and only if its lead is already stored; without a name it always does |
| `Dashboard.ProjectsConserved` | backend/app/api/dashboard.py:19-52 | the status counts and the rejected projects add up to all projects |
| `Dashboard.MonthlyMeaning` | backend/app/api/dashboard.py:62-70 | months ascend without repeats, each has its own sum, and the sums add up to the total |
| `Dashboard.TotalMeaning` | backend/app/api/dashboard.py:28-32 | the total is the sum of what the approved runs state, in any grouping |
| `Dashboard.MonthTotalMeaning` | backend/app/api/dashboard.py:62-70 | and a month's value the total of its own runs |
| `Dashboard.InStatusMeaning` | backend/app/api/dashboard.py:20-23 | each status count is the number of projects in that status |
| `Dashboard.EmissionsTrend` | backend/app/api/dashboard.py:56-89 | the chart shows the grouped rows one by one under the names of their months, or the demonstration figures when there are none |
| `Dashboard.ChartMeaning` | backend/app/api/dashboard.py:62-76 | when some run is approved, a month's name is shown exactly when a run was approved in that month, with the sum of those runs |
| `Dashboard.TrendConservesIff` | backend/app/api/dashboard.py:28-89 | the chart adds up to the dashboard's total if and only if some run is approved |
| `Sanitiser.SafeIsClean` | backend/app/main.py:236-250 | no bytes, sets or models in a value position of the result, at any depth |
| `Sanitiser.CleanIsFixed` | backend/app/main.py:236-250 | a clean value is returned as it is |
| `Sanitiser.SafeIsIdempotent` | backend/app/main.py:236-250 | converting twice is converting once |
| `Sanitiser.FixedIffClean` | backend/app/main.py:236-250 | exactly the clean values are fixed |
| `Sanitiser.SafeKeepsShape` | backend/app/main.py:236-250 | at every depth lists and tuples keep length and order, dictionaries their keys, and a set becomes a list of its converted members, none lost and none added |
| `Sanitiser.RaisesIff` | backend/app/main.py:236-250 | the conversion raises if and only if sorting the converted members of some set does |

## Left out

- Requests carry as inputs what the handlers compute from data outside the
  tables: whether a password matches, for which secrets a TOTP is valid, what
  JWT decoding yields, fresh tokens, secrets and row ids, clock readings, and
  whether the session store answered. Password hashes and the contents of the
  session store are not part of the state, nor is the optional session header.
- Account look-up by e-mail hash, with the healing of legacy hashes
  (backend/app/api/auth.py:186-222), and several rows matching one look-up.
- The password change, the set-up of a second factor, session listing, OAuth
  sign-in, API keys, user creation by an administrator, roles and permissions,
  cookies, rate limits, e-mail and audit logging.
- Invites.ExpiredInviteBlocksForever: over runs of the eighteen requests; the
  erasure job deletes the invites and refresh tokens of an erased user
  (backend/app/tasks/compliance_jobs.py:234-296) and is not one of them.
- SecondFactor.FactorFrame: over the eighteen requests; the same job turns the
  factor of an erased user off.
- TokenRuns.RevokedForever: over the eighteen requests; the same job deletes
  records instead of revoking them.
- SecondFactor.SecondFactorHolds: over the eighteen requests; the OAuth callback
  (backend/app/api/oauth.py:174-262, 335-370) signs an account in on the word of
  the provider, linking by e-mail address, and asks for no second factor.
- SecondFactor.SignInPresentsFactor: the same.
- SecondFactor.BearersAfter: the same callback hands out access tokens too.
- SecondFactor.BearersComeFromAdmissions: the same.
- SecondFactor.SecondStepNeedsFirst: the same.
- TokenRuns.LiveTokensComeFromSignIns: the same callback adds live tokens.
- TokenRuns.OnlySignInsAdd: the same.
- AuthOutcomes.AccessNeedsPassword: over the eighteen requests; the same callback
  gives access too.
- Invites.UsersCounted: the same callback, and an administrator, create users too.
- Lifecycles.ProjectChangesBound: over PATCH requests; the orchestrator writes a
  project's status as well (backend/app/orchestrator/orchestrator.py:259).
- Lifecycles.ProjectStagesInOrder: the same.
- Concurrency and database isolation: each handler is one step between its
  commits. A clock that goes back is excluded where a theorem says so.
- Lifecycles.ReportRestsOnDecision: follows one report of one calculation.
- Registry clients, report drafting and quality checks, calculation engines and
  the merging of calculation parameters.
- GateBound.BacklogBound: takes decision confidences to be in 0..1, as the
  agents' result type clamps them (backend/app/agents/base.py:39).
- Floating point: scores, rates and samples are real numbers; `round` is modelled
  with its ties. NaN and infinities are not modelled.
- ISO text parsing, and dates before year one: a snapshot's time is an integer
  with an optional offset. Journeys come in the order of their sorted names.
- In quality control: the checks of calculations, hashes and of other projects
  give only their numbers of flags; a survey query that fails samples no
  surveys, which is the empty list here.
- In validation: the knowledge-base passages and the wording of the flags, which
  is a parameter since dismissal compares it.
- The agents' reasoning, evidence and output documents, and the number of
  anomalies that they show.
- LeadQuery.AnswerMeaning: ties in the score and in the audit times are broken
  by the database; the theorem holds for every way to break them.
- LeadImport.LeadStore.BulkImport: what makes a flush fail for a reason that is
  not in the row's length and status limits, such as a lost connection or text
  that the database cannot encode, is an input of the item, and whether the
  commit is answered an input of the request. A read-back that fails after its
  flush went through is not modelled.
- LeadScrape.ScrapeAll: whether a record's dates parse and the scorer takes its
  fields is an input of the record, and what makes the commit fail for other
  columns (encrypted contacts, numbers) or for other reasons an input of the
  request. Scores, priorities and the log of scraper runs are left out.
- Lead statistics, conversion and document fetching, and all list endpoints.
- Sanitiser.SafeIsClean: decoding, sorting and `model_dump` are parameters;
  sorting is taken to return the same values in some order, or to raise, and a
  model to dump to clean JSON. Dictionary keys are not converted, so bytes in a
  key stay.
- The orchestrator, the Merkle audit chain, remediation, matching, transactions
  and tokenization, role tables, migrations, the frontend and the mobile
  applications are not part of this model.
