# Verification of the social-badge backend

A Dafny model of the account, session and template core of the social-badge
backend, with proofs about whole runs of it. `dafny verify dfyconfig.toml`
checks the project.

## How it is built

- `Auth.dfy` gives the three tables (`users`, `auth_providers`,
  `refresh_tokens`), the Redis keys of each prefix, and what every handler does
  to them, as functions from state to state. `Runs.dfy` strings the handlers
  and the clock into serial runs (`History`) and defines what an observer logs.
- `AuthService.dfy` has the handlers as the program runs them: statements that
  change a database session (`Sql.dfy`: pending writes, flush, commit,
  rollback), a Redis client and the token library. Each is proved to end in
  exactly the state and reply of its function in `Auth.dfy`.
- `Invariants.dfy`, `SessionLaws.dfy`, `BlacklistLaws.dfy`, `LockoutLaws.dfy`,
  `SecretLaws.dfy`, `GoogleLaws.dfy`, `Provenance.dfy` and `AcceptanceLaws.dfy`
  prove laws about all runs. Most of them read a decision of the program off
  the log of the run, in both directions. `FirstSession.dfy` is the short run
  that their counterexamples start from.
- `AccountLaws.dfy` and `AnswerLaws.dfy` put these together: every answer to
  every request is a function of the log (`AnswerLaws.AnswersExactly`).
  `Replay.dfy` does the same for every row and column of the tables
  (`Replay.TablesExactly`).
- `LockoutInterleaving.dfy`, `LockoutSliding.dfy` and `SingleUse.dfy` take the
  same Redis commands as single atomic steps of any number of concurrent
  handlers.
- `Keyspace.dfy` shows that one flat Redis database with the five literal
  prefixes acts as five independent ones, and that commands on maps with values
  of their own types act as those on the stored strings, which is why the other
  modules keep five typed maps.
- `Templates.dfy`, `NameMigration.dfy` (on `PyStr.dfy`) and `Base64Url.dfy` are
  independent of the rest.

## Assumptions

- The clock is monotone, shared by the application and Redis, counted in
  microseconds, and stands still while one handler runs.
- Random tokens, states, ids and jtis are new when drawn; SHA-256 is injective.
  Checking a password against a hash is an arbitrary relation.
- Tokens cannot be forged: what decodes is what was signed. The JWT library is
  not part of this model; it is taken to store `exp` in whole seconds and to
  accept a token only before `exp`, as section 4.1.4 of RFC 7519 says.
- Database transactions run one after the other. Only Redis commands interleave.
- Sending email, the HTTP exchange with Google, `json.loads` and bcrypt are
  inputs or parameters. Google's answer is any answer, including none.
- Window and lifetime settings are positive where a lemma says `Positive`.

## Where the code and its promises differ

- `publish_template` promises to set `is_published` and `published_at`. After a
  slug collision the rollback drops both and only the slug is committed:
  `Templates.PublishedExactly` gives the exact condition and
  `Templates.PublicationGetsLost` a run.
- `reset_password` promises to invalidate existing sessions. It deletes the
  refresh rows, so nothing is exchanged any more, but blacklists no token. Both
  access and refresh tokens are accepted by `get_current_user` exactly as long
  as without the reset (`AcceptanceLaws.TokenAfterReset`); a run is
  `AcceptanceLaws.TokensSurviveReset`.
- A logout revokes the refresh row and blacklists the access token only, and
  `get_current_user` does not look at the `type` of a token. The refresh token
  of a logged-out session is therefore accepted as a bearer token until its own
  expiry, days later, unless it was itself handed in as an access token
  (`AcceptanceLaws.SessionAfterLogout`); a run is
  `AcceptanceLaws.RefreshTokenSurvivesLogout`.
- The lockout promises at most `MAX_LOGIN_ATTEMPTS` failures per window
  (app/api/v1/endpoints/auth.py:240). The window is anchored at its first
  failure, so an interval of the same length can hold up to
  `2 * MAX_LOGIN_ATTEMPTS - 1`, and does. The promise holds for all intervals
  exactly when the limit is one (`LockoutLaws.PromiseKeptExactly`), and under
  concurrency exactly when also one request at a time is past the check
  (`LockoutSliding.ConcurrentPromiseKeptExactly`).
- A blacklist entry outlives its token by less than a second. A verifier that
  allows any leeway past `exp` takes a revoked token back in some run:
  `AcceptanceLaws.RefinementNeedsStrictExpiry`, and
  `AcceptanceLaws.RevokedTokenReturns` tells when.
- A counter that no handler is going to end exists exactly after a crash took
  away the last handler due to run its EXPIRE, and until a correct password is
  given (`LockoutInterleaving.NoStuckLock`). It does happen
  (`LockoutInterleaving.CrashLeavesEndlessCounter`).
- Signing in with a second Google account under an email that is already linked
  raises an uncaught IntegrityError (`GoogleLaws.UpsertConflictsExactly`, with
  a run in `GoogleLaws.SecondAccountConflicts`).

## Model

| member | source | states |
|---|---|---|
| BlacklistLaws.BlacklistRefinesPermanentSet | app/api/deps.py:22-68 | in every run, for every token, `get_current_user` answers as it would with a permanent set of every jti ever revoked by a logout or refresh |
| BlacklistLaws.LoggedOutTokenIsRefused | app/services/auth_service.py:308-324 | a signed token handed to a logout is refused in every continuation of the run |
| BlacklistLaws.EntryOutlivesToken | app/services/auth_service.py:253-255 | a blacklist entry ends at the token's whole-second expiry plus the sub-second part of the moment of writing: never before the token, less than a second after |
| BlacklistLaws.StepKeepsFaith | app/services/auth_service.py:232-255 | what each handler keeps between the self-expiring entries and the permanent set, also when a token is blacklisted again |
| BlacklistLaws.WritesLiveEntryOnly | app/core/token.py:17-20 | blacklisting writes at most the one entry of the token, never with a lifetime Redis would reject, and none exactly when nothing or no whole second is left to revoke |
| SessionLaws.SessionsConserved | app/services/auth_service.py:291-303 | the unrevoked refresh rows of a user plus the logouts that closed one equal the sign-ins and callbacks, all since the user's last reset; rotation contributes nothing |
| SessionLaws.RefreshedAtMostOnce | app/services/auth_service.py:258-305 | no run exchanges the same raw refresh token twice |
| SessionLaws.RefreshNeedsRow | app/services/auth_service.py:264-287 | in any state a refresh succeeds exactly for the existing owner of an unrevoked, unexpired row, and otherwise changes nothing |
| SessionLaws.DeadStaysDead | app/services/auth_service.py:271-287 | a signed token that is revoked, deleted, expired or no refresh token stays so, and every later refresh with it is rejected without effect |
| SessionLaws.LogOutIsFinal | app/services/auth_service.py:314-322 | after a logout with a refresh token, that token is dead in every continuation |
| SessionLaws.ResetIsFinal | app/services/auth_service.py:168-173 | after a successful reset, every refresh token minted for that user before is dead in every continuation |
| SessionLaws.ResetRevokesNothing | app/services/auth_service.py:144-173 | a reset changes the answer of `get_current_user` for no token, access or refresh |
| SessionLaws.VerifiedSessions | app/services/auth_service.py:597-600 | in every reachable state each refresh row and each Google link belongs to a verified user, and verification never reverts |
| SessionLaws.RunsGrow | app/models/user.py:22-30 | users, their emails, verification, provider rows and signed tokens are never taken back |
| Invariants.Reachable | app/models/auth_provider.py:19-33 | every reachable state meets the uniqueness and foreign key constraints, verified-only sessions and links, rows matching signed tokens, unique jtis and resolvable stored user ids |
| AnswerLaws.AnswersExactly | app/services/auth_service.py:71-324 | the service is a function of its log: in every run the answer to every request is decided by the earlier requests, answers and times, without tables or keys |
| AnswerLaws.SignInExactly | app/services/auth_service.py:176-229 | of its four answers a sign-in gives the lock exactly while the log bars the email, a failure (with the count of the window) unless the email has an account whose latest password accepts, and then a session exactly for who was vouched for |
| AnswerLaws.SignUpExactly | app/services/auth_service.py:71-115 | a signup conflicts exactly when the email has an account, changing nothing; else it adds exactly the row asked for, unverified, and one `email` provider row, and leaves every other row alone |
| AnswerLaws.ResendExactly | app/services/auth_service.py:118-141 | a verification token is issued to exactly the account of the email while nobody vouched for it, else nothing happens |
| AnswerLaws.RequestResetExactly | app/services/auth_service.py:373-397 | a reset token is issued to exactly the account of the email, else nothing happens |
| AnswerLaws.ResetWasRequested | app/services/auth_service.py:144-173 | a successful reset of a user goes back to exactly one forgot request of the run, which bears that user's email, within its lifetime and not presented since |
| AnswerLaws.LiveTokenOrigin | app/core/token.py:29-38 | the same for every live verification or reset token |
| AnswerLaws.LogOutExactly | app/services/auth_service.py:314-322 | a logout closes a session exactly when its refresh token has an open lease in the log, expired or not |
| AnswerLaws.GoogleCallbackExactly | app/api/v1/endpoints/auth.py:556-592 | which of its answers a callback gives and for which user; a link is refused exactly when the subject is not linked and the email has an account with a password that nobody vouched for |
| AccountLaws.AccountExactly | app/models/user.py:28 | in every run the account of an email is the one its signup or first callback opened |
| AccountLaws.LinkExactly | app/services/auth_service.py:589-601 | in every run the user of a Google subject is the one its callbacks signed in, and who has a Google link is who any callback signed in |
| Replay.TablesExactly | app/services/auth_service.py:81-88 | in every run the three tables are the replay of the log, row by row and column by column: no handler writes what its answer does not tell |
| Provenance.VerifiedExactly | app/api/v1/endpoints/auth.py:467-507 | in every run exactly those users are verified who redeemed a verification token or were signed in by Google |
| Provenance.PasswordExactly | app/services/auth_service.py:81-88 | the stored hash is the one of the user's latest reset, else of the signup, else none |
| Provenance.RefreshExactly | app/services/auth_service.py:264-305 | a refresh succeeds exactly when the log shows the token handed out, within its lifetime, and not since exchanged, logged out or wiped by a reset of its user; the reply names that user |
| AcceptanceLaws.AcceptedExactly | app/api/deps.py:29-61 | `get_current_user` accepts exactly the tokens signed by a sign-in, refresh or callback, before their expiry, that were not handed in since as the access token of a logout or successful refresh; the answer is that session's user, who is verified |
| AcceptanceLaws.AnyTokenExactly | app/api/deps.py:29-61 | in any state and for any signed token, whatever claims it lacks, acceptance needs exactly an existing subject, a jti without a live entry, and no expiry in the past |
| AcceptanceLaws.RevokedExactly | app/services/auth_service.py:232-255 | the jti of a signed token is revoked exactly when the log shows that very token handed in as an access token |
| AcceptanceLaws.SessionAfterLogout | app/services/auth_service.py:308-324 | after a logout with both tokens of a session its access token is refused and its refresh token never exchanged, but the refresh token is accepted as a bearer token exactly until its expiry, unless handed in as an access token |
| AcceptanceLaws.RefreshTokenSurvivesLogout | app/api/deps.py:29-61 | a run whose logged-out refresh token still authenticates |
| AcceptanceLaws.TokenAfterReset | app/services/auth_service.py:144-173 | after a reset the user's earlier tokens are never exchanged, but accepted exactly as without it |
| AcceptanceLaws.TokensSurviveReset | app/services/auth_service.py:144-173 | a run with a successful reset after which both earlier tokens still authenticate |
| AcceptanceLaws.RevokedTokenReturns | app/core/token.py:17-26 | for a verifier with a leeway, a logged-out token is accepted again exactly from its expiry plus the sub-second part of the logout, until the leeway ends |
| AcceptanceLaws.RefinementNeedsStrictExpiry | app/core/token.py:17-26 | the expiring blacklist answers like a permanent set in every run exactly when the verifier allows no leeway |
| SecretLaws.ResetExactly | app/services/auth_service.py:150-173 | a reset succeeds for a user exactly when the token was issued to that user less than its lifetime ago and nobody presented it since |
| SecretLaws.VerificationExactly | app/api/v1/endpoints/auth.py:472-507 | the same for verification tokens, of users not yet verified; a granted token is never rejected as expired |
| SecretLaws.IssueIsUnique | app/core/token.py:29-38 | at most one record of a run issues a given raw token |
| SecretLaws.CallbackExactly | app/services/auth_service.py:429-439 | a callback reaches the account tables exactly when its state was issued less than its lifetime ago, nobody presented it since, and Google's answer is coherent |
| SecretLaws.LiveExactly | app/core/token.py:101-139 | for verification tokens, reset tokens and OAuth states, a stored key is live for its owner exactly when the log grants it |
| LockoutLaws.LockoutRefinesLog | app/services/auth_service.py:349-370 | `check_lockout` raises exactly when the log shows at least the limit of failures in the current window, anchored at its first failure and cleared by a correct password, and that window has not ended |
| LockoutLaws.LockIsAnnounced | app/services/auth_service.py:191-210 | a failed attempt reports a locked account exactly when the next check would refuse |
| LockoutLaws.SlidingWindowBound | app/services/auth_service.py:183-212 | in a run without a correct password every half-open interval as long as the window holds at most twice the limit minus one counted failures |
| LockoutLaws.SlidingWindowBoundIsTight | app/services/auth_service.py:359-366 | a run of the service attains that bound, for every limit of at least one |
| LockoutLaws.GatedCount | app/services/auth_service.py:353-366 | the counting argument over any admitted sequence of failure times |
| LockoutLaws.PromiseKeptExactly | app/api/v1/endpoints/auth.py:240 | every run without a correct password keeps every interval of one window to the limit, exactly when the limit is one |
| LockoutInterleaving.ConcurrentLockoutBound | app/services/auth_service.py:349-370 | under every interleaving with at most k requests past the check, the counter plus those requests stays at or below the limit minus one plus k, through resets, expiries and crashes |
| LockoutSliding.ConcurrentBoundIsTight | app/services/auth_service.py:183-201 | an execution attains that bound, for every limit and k of at least one |
| LockoutSliding.ConcurrentSlidingBound | app/services/auth_service.py:349-370 | under every interleaving without a correct password and with at most k requests past the check, every interval as long as the window holds at most 2 * (limit - 1 + k) - 1 increments, through crashes and late EXPIREs |
| LockoutSliding.ConcurrentSlidingBoundIsTight | app/services/auth_service.py:359-366 | an execution attains that bound, for every limit and k of at least one |
| LockoutSliding.ConcurrentPromiseKeptExactly | app/api/v1/endpoints/auth.py:240 | under every such interleaving the limit itself bounds every interval exactly when the limit and k are one |
| LockoutInterleaving.NoStuckLock | app/services/auth_service.py:359-366 | a counter without an expiry that no handler is due to end exists exactly when a crash took away the last such handler and no correct password was given since |
| LockoutInterleaving.EveryLockEnds | app/services/auth_service.py:363-365 | whenever no EXPIRE is due, the counter, left alone, is gone one window from now exactly when it is not abandoned so; otherwise it stays for ever |
| LockoutInterleaving.CrashFreeAbandonsNothing | app/services/auth_service.py:359-366 | without crashes every counter without an expiry has a handler due to run its EXPIRE |
| LockoutInterleaving.CrashLeavesEndlessCounter | app/services/auth_service.py:361-365 | a crash between INCR and EXPIRE leaves a counter without an end and nobody to end it |
| LockoutInterleaving.UninterruptedIsSerial | app/services/auth_service.py:359-370 | run without interruption, the atomic steps do to the counters what the serial handler does |
| SingleUse.AtMostOneGetsPast | app/core/token.py:111-139 | at most one of any number of concurrent handlers gets past the consumption of a secret, with the value it was issued for |
| SingleUse.ConsumeDecides | app/api/v1/endpoints/auth.py:472-480 | a handler gets past exactly when the secret was issued, is unexpired and nobody got past before |
| SingleUse.VerifyConsumes | app/api/v1/endpoints/auth.py:472-480 | on the same keys, the atomic consumption turns a handler away exactly when the serial verification rejects, and leaves the same keys |
| SingleUse.ResetConsumes | app/services/auth_service.py:150-158 | the same for password resets, with the user it gets past with |
| SingleUse.CallbackConsumes | app/services/auth_service.py:429-439 | the same for callbacks, which also need a coherent answer |
| GoogleLaws.UpsertKeepsConstraints | app/services/auth_service.py:589-653 | on success the tables stay consistent and link the subject to a verified user, new exactly when flagged; otherwise it raises, never for a missing user |
| GoogleLaws.UpsertExactly | app/services/auth_service.py:589-635 | when an upsert refuses, fails to commit or goes through, each under its exact condition, and for whom: the linked user, else the account of the email, else a new one |
| GoogleLaws.UserMissingExactly | app/services/auth_service.py:597-600 | in any state an upsert misses its user exactly when a link names nobody |
| GoogleLaws.UpsertConflictsExactly | app/models/auth_provider.py:19-26 | the commit fails exactly when the account found by email already has a Google link |
| GoogleLaws.SecondAccountConflicts | app/services/auth_service.py:640-653 | a run whose second callback, with another Google account under the same email, ends in an IntegrityError |
| GoogleLaws.UpsertTouchesOneUser | app/services/auth_service.py:607-639 | at most one account changes: a new one without password, or the one with that email, of which only verification and picture change |
| GoogleLaws.NewUserIsNamed | app/services/auth_service.py:608-614 | a new account gets the first word of the display name and the rest of it, or the part of the email before the `@` when the name is blank |
| GoogleLaws.RaisedLeavesTables | app/api/v1/endpoints/auth.py:564-571 | a callback that does not sign in leaves every table as it was |
| GoogleLaws.LinkIsForever | app/services/auth_service.py:589-601 | once a subject is linked, every later upsert with it returns the same user as not new and changes no table |
| Keyspace.FlatIsFiveStores | app/core/token.py:11-14 | for every command sequence and every suffix, the flat database replies within each prefix as a database of its own would, and holds the same entries |
| Keyspace.RenderInjective | app/services/auth_service.py:350 | rendered keys coincide only for the same prefix and suffix |
| Keyspace.TypedCommands | app/core/token.py:17-38 | SET, GET, GETDEL, EXPIRE, DEL and EXISTS on a map of typed values act and answer as on the strings they are stored as |
| Keyspace.TypedCounter | app/services/auth_service.py:359-366 | INCR on a map of counters acts and answers as on their strings and never meets one that is no integer |
| Templates.PublishTemplate | app/services/template_service.py:61-103 | the session, flush, rollback and retry statements end as `Publish` says, after at most five slug attempts |
| Templates.ClaimSlug | app/services/template_service.py:86-97 | the retry loop stops at the first free draw with the row it leaves pending, or gives up with nothing pending |
| Templates.PublishSavesUniqueSlug | app/services/template_service.py:61-103 | every exit either changes only the owner's unpublished row, committing a slug no other template has and keeping an existing one, or raises with the tables unchanged |
| Templates.PublishedExactly | app/services/template_service.py:83-95 | an owner's unpublished template is published afterwards, with its time set, exactly when it had a slug or the first draw was free; otherwise the time stays as it was, even when a later draw becomes its slug |
| Templates.PublishAnswersExactly | app/services/template_service.py:61-100 | each answer of a publication under its exact condition; only a saved one changes the tables |
| Templates.PublishTouchesOneRow | app/services/template_service.py:83-100 | publishing writes only the publication fields and the slug of the one row |
| Templates.PublicationExactly | app/services/template_service.py:61-100 | in every run the answers of a publication read off the log, and the slug it goes through with: the one the template had, or the first draw never answered before |
| Templates.PublicationGetsLost | app/services/template_service.py:86-95 | a run whose second publication commits a slug and answers with the saved row, unpublished |
| Templates.NoUniqueSlugExactly | app/services/template_service.py:96-97 | the loop gives up exactly when every draw is taken |
| Templates.TemplateLifecycle | app/modules/templates/models/organiser_templates_model.py:39-45 | over every run slugs stay unique, published holds exactly when its time is set and implies a slug, and owner, origin, title, canvas and committed slugs never change or disappear |
| Templates.StoryIsTrue | app/services/template_service.py:83-126 | in every run a template's owner, whether and since when it is published, and its slug are read off the log of its latest effective publish or unpublish |
| Templates.TakenExactly | app/modules/templates/models/organiser_templates_model.py:43-45 | a slug is taken exactly when some publication answered with it |
| Templates.UnpublishExactly | app/services/template_service.py:106-128 | unpublishing an owned template clears its two publication fields, keeps its other columns and answers with it; NotFound and NotOwner come under their exact conditions; nothing else changes |
| Templates.CreateExactly | app/services/template_service.py:21-47 | creation adds one unpublished template of the organiser who asked, with title and canvas of the platform template, or reports that there is none |
| Templates.CreateTemplateInstance | app/services/template_service.py:21-47 | creation commits an unpublished row with title and canvas copied from the platform template, an empty canvas for a missing one, or reports that there is no such template |
| Templates.UnpublishTemplate | app/services/template_service.py:106-128 | unpublishing clears the two publication fields of the owner's row and nothing else |
| NameMigration.JoinAfterSplit | alembic/versions/3f59271c2a41_split_user_name.py:31-34 | for a name of any shape, splitting and joining gives it stripped with its first whitespace run collapsed |
| NameMigration.HasShape | alembic/versions/3f59271c2a41_split_user_name.py:32-34 | every name with a non-space character has such a shape |
| NameMigration.CollapsingIsIdempotent | alembic/versions/3f59271c2a41_split_user_name.py:60-65 | doing it twice changes nothing more |
| NameMigration.SplitAfterJoin | alembic/versions/3f59271c2a41_split_user_name.py:60-61 | joining and splitting gives both columns back exactly when the first name is one word and the last name has no outer whitespace |
| NameMigration.UpgradeRaisesExactly | alembic/versions/3f59271c2a41_split_user_name.py:30-33 | the upgrade goes through exactly when no name is blank |
| NameMigration.UpgradeExactly | alembic/versions/3f59271c2a41_split_user_name.py:30-41 | an upgrade stores the first word and what follows the whitespace behind it, within the column lengths, and keeps every other column |
| NameMigration.DowngradeExactly | alembic/versions/3f59271c2a41_split_user_name.py:60-65 | a downgrade of any rows, also edited ones, goes through exactly when every stripped name fits its column, and stores that name |
| NameMigration.RowsRoundTrip | alembic/versions/3f59271c2a41_split_user_name.py:21-72 | what an upgrade leaves fits the new columns and the downgrade succeeds on it, loses no row, keeps every other column and collapses every name |
| NameMigration.Users.UpgradeAndDowngrade | alembic/versions/3f59271c2a41_split_user_name.py:21-72 | run one after the other, both go through or neither, exactly when no name is blank; every name ends collapsed, or as it was |
| NameMigration.Users.Upgrade | alembic/versions/3f59271c2a41_split_user_name.py:21-48 | all rows are split, or none when one raises |
| NameMigration.Users.Downgrade | alembic/versions/3f59271c2a41_split_user_name.py:51-72 | all rows are joined, or none when a name does not fit its column |
| NameMigration.Users.UpdateEach | alembic/versions/3f59271c2a41_split_user_name.py:31-41 | the loop applies the update to every row once, in any order, or reports that one raised |
| Base64Url.DecodeInvertsEncode | app/services/auth_service.py:560 | decoding the padded encoding of any bytes gives them back |
| Base64Url.PaddingCompletes | app/services/auth_service.py:557 | the computed padding completes an unpadded encoding to the padded form of section 5 of RFC 4648 |
| Base64Url.ThreePadsMeanNoEncoding | app/services/auth_service.py:557 | three pads are added exactly for lengths no encoder produces |
| Base64Url.PayloadRecovered | app/services/auth_service.py:545-573 | from a token of section 7.1 of RFC 7515 with dot-free header and signature, the JSON reader gets exactly the payload bytes, and its answer decides the result |
| Base64Url.DecodeExactly | app/services/auth_service.py:560 | decoding any text skips foreign characters, stops at the first completed padding, succeeds exactly when there is one or the data are whole quanta, and gives the bytes whose encoding is the data but for dropped bits |
| Base64Url.SubjectFoundExactly | app/services/auth_service.py:545-573 | a subject is found exactly in tokens of three dot-free parts whose middle one is ASCII and decodes to an object with that non-empty `sub` |
| Base64Url.ExtractionFailsExactly | app/services/auth_service.py:552-573 | when the extraction fails as malformed, and when with the ValueError nobody catches |
| Base64Url.SubjectsAgreeExactly | app/services/auth_service.py:531-542 | the cross-check passes exactly when the payload's `sub` is the non-empty userinfo subject |
| AuthService.SignUp | app/services/auth_service.py:71-115 | the statements end in the state and reply of `Auth.SignUp` |
| AuthService.ResendVerification | app/services/auth_service.py:118-141 | the statements end in the state and reply of `Auth.ResendVerification` |
| AuthService.VerifyEmail | app/api/v1/endpoints/auth.py:467-507 | the statements end in the state and reply of `Auth.VerifyEmail` |
| AuthService.SignIn | app/services/auth_service.py:176-229 | the statements end in the state and reply of `Auth.SignIn` |
| AuthService.RefreshSession | app/services/auth_service.py:258-305 | the statements end in the state and reply of `Auth.RefreshSession` |
| AuthService.LogOut | app/services/auth_service.py:308-324 | the statements end in the state and reply of `Auth.LogOut` |
| AuthService.GetCurrentUser | app/api/deps.py:22-68 | the checks in their order give `Auth.CurrentUser` and write nothing |
| AuthService.BlacklistAccessTokenIfValid | app/services/auth_service.py:232-255 | a decodable access token is blacklisted for the whole seconds it has left, and nothing else changes |
| AuthService.RequestPasswordReset | app/services/auth_service.py:373-397 | the statements end in the state and reply of `Auth.RequestReset` |
| AuthService.ResetPassword | app/services/auth_service.py:144-173 | the statements end in the state and reply of `Auth.ResetPassword` |
| AuthService.BuildGoogleAuthUrl | app/services/auth_service.py:400-416 | the statements end in the state and reply of `Auth.StartGoogle` |
| AuthService.UpsertGoogleUser | app/services/auth_service.py:576-653 | the pending writes and the commit give the tables and result of `Auth.UpsertGoogleUser`, or raise with the committed tables untouched |
| AuthService.GoogleCallback | app/api/v1/endpoints/auth.py:556-592 | the statements end in the state and reply of `Auth.GoogleCallback` |
| AuthService.RedisClient.IncrementFailedAttempts | app/services/auth_service.py:359-366 | INCR, and EXPIRE only for the first failure of a window; returns the count |

## Left out

- Concurrent database transactions: the isolation level is not set in the code, so handlers' table accesses run serially; the IntegrityError branch of a racing signup is therefore unreachable here.
- `get_verified_user_id` (app/core/token.py:54-69): get-then-delete, used by no endpoint.
- Email sending, the SMTP fallback and the HTML builders: delivery has no effect on the state.
- The HTTP exchange with Google (app/services/auth_service.py:442-528): its outcome is an arbitrary answer.
- bcrypt, SHA-256, JWT signing and JSON parsing: arbitrary functions under the assumptions above.
- Routing, cookies, CORS, request validators, settings validation and rate limits of slowapi.
- The minutes shown in a lockout message (app/services/auth_service.py:354-356).
- A clock that moves while one handler runs: every handler reads one time.
- Deletion of users and templates: no code deletes them, so `deleted_at` stays as it is found.
- Template columns that none of the three operations touches (caption, link, thumbnail, access type).
- Badges, hashtags, the seed script, the contact form and the other migrations: schema or I/O without logic of this kind.
