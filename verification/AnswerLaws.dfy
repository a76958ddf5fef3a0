/** Every answer of the service is decided by the log of the run: by what it
    answered before, when, and to which requests. */
module AnswerLaws {
  import opened Wrappers
  import opened Redis
  import opened Auth
  import opened Runs
  import opened Invariants
  import opened SessionLaws
  import opened LockoutLaws
  import opened SecretLaws
  import opened GoogleLaws
  import opened Provenance
  import opened AccountLaws

  // ----- The answers, without tables or keys -----

  /** The owner of a secret whose latest issue has not run out and has not been presented since. */
  function Redeemable(cfg: Settings, kind: Kind, log: seq<Record>, now: Time, raw: string): Option<Owner> {
    var p := Pending(kind, log, raw);
    if p.Some? && now < p.value.at + Lifetime(cfg, kind) then Some(p.value.owner) else None
  }

  predicate Fits(cfg: Settings, hash: Option<string>, password: string) {
    hash.Some? && hash.value != "" && cfg.checkPassword(password, hash.value)
  }

  ghost function LoginAnswer(cfg: Settings, log: seq<Record>, now: Time, email: string, password: string, m: Mint): Reply {
    var failures, u := Failures(log, email), AccountOf(log, email);
    if Barred(cfg.maxAttempts, Span(cfg), failures, now) then AccountLocked
    else if u.None? || !Fits(cfg, LatestHash(log, u.value), password) then
      var count := |Window(Span(cfg), failures + [now])|;
      AttemptFailed(count, count >= cfg.maxAttempts)
    else if Vouched(log, u.value) then SignedIn(u.value, m.refresh)
    else EmailNotVerified
  }

  ghost function LinkAnswer(log: seq<Record>, info: GoogleInfo, id: UserId, m: Mint): Reply {
    var linked, u := LinkOf(log, info.subject), AccountOf(log, info.email);
    if linked.Some? then GoogleSignedIn(linked.value, false, m.refresh)
    else if u.None? then GoogleSignedIn(id, true, m.refresh)
    else if LatestHash(log, u.value).Some? && !Vouched(log, u.value) then LinkRefused
    else if GoogleUsed(log, u.value) then IntegrityError
    else GoogleSignedIn(u.value, false, m.refresh)
  }

  ghost function VerifyAnswer(cfg: Settings, log: seq<Record>, now: Time, raw: string): Reply {
    var u := Redeemable(cfg, VerifyToken, log, now, raw);
    if u.None? || u.value.Nobody? then VerifyRejected
    else if Vouched(log, u.value.user) then AlreadyVerified
    else EmailVerified(u.value.user)
  }

  function ResetAnswer(cfg: Settings, log: seq<Record>, now: Time, raw: string): Reply {
    var u := Redeemable(cfg, ResetToken, log, now, raw);
    if u.None? || u.value.Nobody? then ResetRejected else PasswordReset(u.value.user)
  }

  function RefreshAnswer(cfg: Settings, log: seq<Record>, now: Time, raw: string, m: Mint): Reply {
    var l := LeaseOf(log, raw);
    if l.Some? && now <= l.value.at + cfg.refreshDays * 86400 * TICKS_PER_SECOND then Refreshed(l.value.user, raw, m.refresh)
    else RefreshRejected
  }

  function LogOutAnswer(log: seq<Record>, raw: Option<string>): Reply {
    if raw.None? || raw.value == "" || LeaseOf(log, raw.value).None? then LoggedOut(None)
    else LoggedOut(Some(LeaseOf(log, raw.value).value.user))
  }

  ghost function CallbackAnswer(cfg: Settings, log: seq<Record>, now: Time, state: string, answer: Option<GoogleInfo>,
                                id: UserId, m: Mint): Reply {
    if Redeemable(cfg, SecretLaws.OauthState, log, now, state).None? || !Coherent(answer) then GoogleRejected
    else LinkAnswer(log, answer.value, id, m)
  }

  ghost function Answer(cfg: Settings, log: seq<Record>, now: Time, e: Event): Reply {
    match e
    case Tick(_) => Ticked
    case SignupRequest(email, _, _, _, id, _) => if AccountOf(log, email).Some? then EmailConflict else SignedUp(id)
    case ResendRequest(email, raw) =>
      var u := AccountOf(log, email);
      if u.None? || Vouched(log, u.value) then NothingSent else VerificationIssued(u.value, raw)
    case VerifyRequest(raw) => VerifyAnswer(cfg, log, now, raw)
    case LoginRequest(email, password, m) => LoginAnswer(cfg, log, now, email, password, m)
    case RefreshRequest(raw, _, m) => RefreshAnswer(cfg, log, now, raw, m)
    case LogoutRequest(raw, _) => LogOutAnswer(log, raw)
    case ForgotRequest(email, raw) =>
      var u := AccountOf(log, email);
      if u.None? then NothingSent else ResetIssued(u.value, raw)
    case ResetRequest(raw, _) => ResetAnswer(cfg, log, now, raw)
    case GoogleRequest(_) => GoogleStarted
    case CallbackRequest(state, answer, id, m) => CallbackAnswer(cfg, log, now, state, answer, id, m)
  }

  // ----- Emails and passwords -----

  lemma AccountFacts(cfg: Settings, h: History, email: string)
    requires Valid(cfg, h)
    ensures var s, u := After(cfg, h), AccountOf(Log(cfg, h), email);
      && UserByEmail(s.db, email) == u
      && (u.Some? ==> (s.db.users[u.value].verified <==> Vouched(Log(cfg, h), u.value)))
      && (u.Some? ==> s.db.users[u.value].passwordHash == LatestHash(Log(cfg, h), u.value))
  {
    AccountExactly(cfg, h, email);
    var u := AccountOf(Log(cfg, h), email);
    if u.Some? {
      VerifiedExactly(cfg, h, u.value);
      PasswordExactly(cfg, h, u.value);
    }
  }

  lemma CountIsWindow(cfg: Settings, h: History, email: string)
    requires Positive(cfg)
    ensures var s := After(cfg, h);
      Incr(s.redis.failed, s.now, email)[email].value == |Window(Span(cfg), Failures(Log(cfg, h), email) + [s.now])|
  {
    var s := After(cfg, h);
    CounterIsWindow(cfg, h, email);
    CountFailureExtends(cfg, s.redis.failed, s.now, email, Failures(Log(cfg, h), email));
  }

  lemma SignInDecided(cfg: Settings, s: State, email: string, password: string, m: Mint)
    ensures var u, count := UserByEmail(s.db, email), Incr(s.redis.failed, s.now, email)[email].value;
      SignIn(cfg, s, email, password, m).1 ==
        if Locked(cfg, s.redis.failed, s.now, email) then AccountLocked
        else if u.None? || !Fits(cfg, s.db.users[u.value].passwordHash, password) then AttemptFailed(count, count >= cfg.maxAttempts)
        else if s.db.users[u.value].verified then SignedIn(u.value, m.refresh)
        else EmailNotVerified
  {
  }

  /** Which of its four answers a sign-in gives: it is refused exactly while the
      log bars the email; it fails, telling the failures of the window, unless
      the email has an account whose latest password accepts; and then it signs
      in exactly who was vouched for. */
  lemma SignInExactly(cfg: Settings, h: History, email: string, password: string, m: Mint)
    requires Valid(cfg, h) && Positive(cfg)
    ensures SignIn(cfg, After(cfg, h), email, password, m).1 == LoginAnswer(cfg, Log(cfg, h), After(cfg, h).now, email, password, m)
  {
    SignInDecided(cfg, After(cfg, h), email, password, m);
    LockoutRefinesLog(cfg, h, email);
    AccountFacts(cfg, h, email);
    CountIsWindow(cfg, h, email);
  }

  /** The row a signup was asked for. */
  predicate AsAsked(u: User, email: string, first: string, last: Option<string>, hash: string) {
    && u.email == email && u.firstName == first && u.lastName == last && u.passwordHash == Some(hash)
    && !u.verified && u.photo == None
  }

  lemma SignUpWrites(cfg: Settings, s: State, email: string, first: string, last: Option<string>,
                     hash: string, id: UserId, raw: string)
    requires id !in s.db.users
    ensures var (t, r) := SignUp(cfg, s, email, first, last, hash, id, raw);
      && (r == EmailConflict <==> UserByEmail(s.db, email).Some?)
      && (r == EmailConflict ==> t == s)
      && (r != EmailConflict ==>
            && r == SignedUp(id) && t.db.users.Keys == s.db.users.Keys + {id}
            && AsAsked(t.db.users[id], email, first, last, hash)
            && (forall v :: v in s.db.users ==> t.db.users[v] == s.db.users[v])
            && t.db.providers == s.db.providers + [Provider("email", None, id)]
            && t.db.refresh == s.db.refresh && t.signed == s.signed)
  {
  }

  /** A signup conflicts exactly when the email has an account, and then changes
      nothing; otherwise it adds exactly the row it was asked for, unverified,
      and its `email` provider row. */
  lemma SignUpExactly(cfg: Settings, h: History, email: string, first: string, last: Option<string>,
                      hash: string, id: UserId, raw: string)
    requires Valid(cfg, h) && id !in After(cfg, h).db.users
    ensures var s, (t, r) := After(cfg, h), SignUp(cfg, After(cfg, h), email, first, last, hash, id, raw);
      && (r == EmailConflict <==> AccountOf(Log(cfg, h), email).Some?)
      && (r == EmailConflict ==> t == s)
      && (r != EmailConflict ==>
            && r == SignedUp(id) && t.db.users.Keys == s.db.users.Keys + {id}
            && AsAsked(t.db.users[id], email, first, last, hash)
            && (forall v :: v in s.db.users ==> t.db.users[v] == s.db.users[v])
            && t.db.providers == s.db.providers + [Provider("email", None, id)]
            && t.db.refresh == s.db.refresh && t.signed == s.signed)
  {
    AccountExactly(cfg, h, email);
    SignUpWrites(cfg, After(cfg, h), email, first, last, hash, id, raw);
  }

  /** A verification email goes to exactly the account of the email while nobody vouched for it. */
  lemma ResendExactly(cfg: Settings, h: History, email: string, raw: string)
    requires Valid(cfg, h)
    ensures var s, (t, r) := After(cfg, h), ResendVerification(cfg, After(cfg, h), email, raw);
      && (forall u: UserId :: r == VerificationIssued(u, raw) <==>
            AccountOf(Log(cfg, h), email) == Some(u) && !Vouched(Log(cfg, h), u))
      && (r.VerificationIssued? || (r == NothingSent && t == s)) && t.db == s.db
  {
    AccountFacts(cfg, h, email);
  }

  /** A reset token goes to exactly the account of the email. */
  lemma RequestResetExactly(cfg: Settings, h: History, email: string, raw: string)
    requires Valid(cfg, h)
    ensures var s, (t, r) := After(cfg, h), RequestReset(cfg, After(cfg, h), email, raw);
      && (forall u: UserId :: r == ResetIssued(u, raw) <==> AccountOf(Log(cfg, h), email) == Some(u))
      && (forall u: UserId :: r == ResetIssued(u, raw) <==> HasEmail(s.db, u, email))
      && (r.ResetIssued? || (r == NothingSent && t == s)) && t.db == s.db
  {
    AccountExactly(cfg, h, email);
    Reachable(cfg, h);
    EmailIsUnique(After(cfg, h).db, email);
  }

  // ----- Secrets -----

  function LiveOwner(s: State, kind: Kind, raw: string): Option<Owner> {
    var e := Stored(s, kind, raw);
    if e.Some? && Live(e.value, s.now) then Some(e.value.value) else None
  }

  lemma RedeemableExactly(cfg: Settings, h: History, kind: Kind, raw: string)
    ensures Redeemable(cfg, kind, Log(cfg, h), After(cfg, h).now, raw) == LiveOwner(After(cfg, h), kind, raw)
  {
    KeysMatchLog(cfg, h, kind, raw);
  }

  lemma VerifyDecided(s: State, raw: string)
    requires RefsResolve(s)
    ensures var o := LiveOwner(s, VerifyToken, raw);
      VerifyEmail(s, raw).1 ==
        if o.None? || o.value.Nobody? then VerifyRejected
        else if IsVerified(s.db, o.value.user) then AlreadyVerified else EmailVerified(o.value.user)
  {
  }

  lemma VerifyEmailExactly(cfg: Settings, h: History, raw: string)
    requires Valid(cfg, h)
    ensures VerifyEmail(After(cfg, h), raw).1 == VerifyAnswer(cfg, Log(cfg, h), After(cfg, h).now, raw)
  {
    Reachable(cfg, h);
    RedeemableExactly(cfg, h, VerifyToken, raw);
    VerifyDecided(After(cfg, h), raw);
    var o := LiveOwner(After(cfg, h), VerifyToken, raw);
    if o.Some? && o.value.Of? {
      VerifiedExactly(cfg, h, o.value.user);
    }
  }

  lemma ResetDecided(s: State, raw: string, hash: string)
    requires RefsResolve(s)
    ensures var o := LiveOwner(s, ResetToken, raw);
      ResetPassword(s, raw, hash).1 == if o.None? || o.value.Nobody? then ResetRejected else PasswordReset(o.value.user)
  {
  }

  lemma ResetPasswordExactly(cfg: Settings, h: History, raw: string, hash: string)
    requires Valid(cfg, h)
    ensures ResetPassword(After(cfg, h), raw, hash).1 == ResetAnswer(cfg, Log(cfg, h), After(cfg, h).now, raw)
  {
    Reachable(cfg, h);
    RedeemableExactly(cfg, h, ResetToken, raw);
    ResetDecided(After(cfg, h), raw, hash);
  }

  /** The email a request bears that has a token of this kind sent to it. */
  function SentTo(kind: Kind, e: Event, raw: string): Option<string> {
    match e
    case SignupRequest(email, _, _, _, _, r) => if kind == VerifyToken && r == raw then Some(email) else None
    case ResendRequest(email, r) => if kind == VerifyToken && r == raw then Some(email) else None
    case ForgotRequest(email, r) => if kind == ResetToken && r == raw then Some(email) else None
    case _ => None
  }

  lemma StepSends(cfg: Settings, s: State, e: Event, kind: Kind, raw: string, u: UserId)
    requires IssuedTo(kind, Record(s.now, e, Step(cfg, s, e).1), raw) == Some(Of(u))
    ensures var email := SentTo(kind, e, raw); email.Some? && HasEmail(Step(cfg, s, e).0.db, u, email.value)
  {
    match e
    case RefreshRequest(r, access, m) => RefreshKeepsKeys(cfg, s, r, access, m);
    case LoginRequest(email, password, m) => SignInKeepsKeys(cfg, s, email, password, m);
    case CallbackRequest(state, answer, id, m) => CallbackKeys(cfg, s, state, answer, id, m);
    case _ =>
  }

  /** Every token was issued for a request bearing the email of its owner. */
  lemma {:induction false} IssuedByEmail(cfg: Settings, h: History, kind: Kind, i: nat, u: UserId, raw: string)
    requires Valid(cfg, h) && i < |Log(cfg, h)| && IssuedTo(kind, Log(cfg, h)[i], raw) == Some(Of(u))
    ensures var email := SentTo(kind, Log(cfg, h)[i].event, raw); email.Some? && HasEmail(After(cfg, h).db, u, email.value)
  {
    var g := h.before;
    if i < |Log(cfg, g)| {
      assert Log(cfg, h)[i] == Log(cfg, g)[i];
      IssuedByEmail(cfg, g, kind, i, u, raw);
      RunsGrow(cfg, g, h);
    } else {
      StepSends(cfg, After(cfg, g), h.event, kind, raw, u);
    }
  }

  /** A live token of `u` comes from exactly one record of the run: a request
      that bears the email of `u`, less than the lifetime ago, and nobody has
      presented the token since. */
  lemma LiveTokenOrigin(cfg: Settings, h: History, kind: Kind, raw: string, u: UserId) returns (i: nat)
    requires Valid(cfg, h) && LiveFor(After(cfg, h), kind, raw, Of(u))
    ensures Grants(cfg, kind, Log(cfg, h), After(cfg, h).now, i, Of(u), raw)
    ensures var email := SentTo(kind, Log(cfg, h)[i].event, raw); email.Some? && HasEmail(After(cfg, h).db, u, email.value)
    ensures forall j :: 0 <= j < |Log(cfg, h)| && IssuedTo(kind, Log(cfg, h)[j], raw).Some? ==> j == i
  {
    LiveExactly(cfg, h, kind, Of(u), raw);
    i :| Grants(cfg, kind, Log(cfg, h), After(cfg, h).now, i, Of(u), raw);
    IssuedByEmail(cfg, h, kind, i, u, raw);
    IssuesAreDrawn(cfg, h, kind, raw);
  }

  /** A successful reset of `u` goes back to exactly one forgot request, and
      that request bears the email of `u`. */
  lemma ResetWasRequested(cfg: Settings, h: History, raw: string, hash: string, u: UserId) returns (i: nat)
    requires Valid(cfg, h) && ResetPassword(After(cfg, h), raw, hash).1 == PasswordReset(u)
    ensures Grants(cfg, ResetToken, Log(cfg, h), After(cfg, h).now, i, Of(u), raw)
    ensures u in After(cfg, h).db.users && Log(cfg, h)[i].event == ForgotRequest(After(cfg, h).db.users[u].email, raw)
    ensures forall j :: 0 <= j < |Log(cfg, h)| && IssuedTo(ResetToken, Log(cfg, h)[j], raw).Some? ==> j == i
  {
    Reachable(cfg, h);
    ResetNeedsKey(After(cfg, h), raw, hash, u);
    i := LiveTokenOrigin(cfg, h, ResetToken, raw, u);
  }

  // ----- Sessions -----

  lemma LogOutDecided(cfg: Settings, s: State, raw: string, access: Option<string>, l: Option<Lease>)
    requires RowMatches(cfg, s, raw, l)
    ensures LogOut(s, Some(raw), access).1 == LoggedOut(if raw != "" && l.Some? then Some(l.value.user) else None)
  {
  }

  /** A logout closes a session exactly when it presents a refresh token of an
      open lease, expired or not. */
  lemma LogOutExactly(cfg: Settings, h: History, raw: Option<string>, access: Option<string>)
    requires Valid(cfg, h)
    ensures LogOut(After(cfg, h), raw, access).1 == LogOutAnswer(Log(cfg, h), raw)
  {
    if raw.Some? {
      RowsMatchLeases(cfg, h, raw.value);
      LogOutDecided(cfg, After(cfg, h), raw.value, access, LeaseOf(Log(cfg, h), raw.value));
    }
  }

  // ----- Google -----

  lemma CallbackDecided(cfg: Settings, s: State, state: string, info: GoogleInfo, id: UserId, m: Mint)
    requires LiveOwner(s, SecretLaws.OauthState, state).Some? && Coherent(Some(info))
    ensures GoogleCallback(cfg, s, state, Some(info), id, m).1 ==
      match UpsertGoogleUser(s.db, info, id)
      case Ok(up) => GoogleSignedIn(up.user, up.isNew, m.refresh)
      case Err(ConstraintFailed) => IntegrityError
      case Err(_) => LinkRefused
  {
  }

  lemma LinkDecided(cfg: Settings, h: History, info: GoogleInfo, id: UserId, m: Mint)
    requires Valid(cfg, h) && id !in After(cfg, h).db.users
    ensures LinkAnswer(Log(cfg, h), info, id, m) ==
      match UpsertGoogleUser(After(cfg, h).db, info, id)
      case Ok(up) => GoogleSignedIn(up.user, up.isNew, m.refresh)
      case Err(ConstraintFailed) => IntegrityError
      case Err(_) => LinkRefused
  {
    var u := AccountOf(Log(cfg, h), info.email);
    Reachable(cfg, h);
    UpsertExactly(After(cfg, h).db, info, id);
    UpsertKeepsConstraints(After(cfg, h).db, info, id);
    AccountFacts(cfg, h, info.email);
    LinkExactly(cfg, h, info.subject, if u.Some? then u.value else 0);
  }

  /** Which of its answers a callback gives, and for which user: a link is
      refused exactly when the subject is not linked and the email has an
      account with a password that nobody vouched for. */
  lemma GoogleCallbackExactly(cfg: Settings, h: History, state: string, answer: Option<GoogleInfo>, id: UserId, m: Mint)
    requires Valid(cfg, h) && id !in After(cfg, h).db.users
    ensures GoogleCallback(cfg, After(cfg, h), state, answer, id, m).1
      == CallbackAnswer(cfg, Log(cfg, h), After(cfg, h).now, state, answer, id, m)
  {
    var s := After(cfg, h);
    CallbackNeedsState(cfg, s, state, answer, id, m);
    RedeemableExactly(cfg, h, SecretLaws.OauthState, state);
    if LiveOwner(s, SecretLaws.OauthState, state).Some? && Coherent(answer) {
      CallbackDecided(cfg, s, state, answer.value, id, m);
      LinkDecided(cfg, h, answer.value, id, m);
    }
  }

  /** The service is a function of its log: in every run every request is
      answered as the earlier requests, answers and times decide. */
  lemma AnswersExactly(cfg: Settings, h: History, e: Event)
    requires Valid(cfg, Then(h, e)) && Positive(cfg)
    ensures Step(cfg, After(cfg, h), e).1 == Answer(cfg, Log(cfg, h), After(cfg, h).now, e)
  {
    match e
    case Tick(_) =>
    case SignupRequest(email, first, last, hash, id, raw) => SignUpExactly(cfg, h, email, first, last, hash, id, raw);
    case ResendRequest(email, raw) => AccountFacts(cfg, h, email);
    case VerifyRequest(raw) => VerifyEmailExactly(cfg, h, raw);
    case LoginRequest(email, password, m) => SignInExactly(cfg, h, email, password, m);
    case RefreshRequest(raw, access, m) => RefreshExactly(cfg, h, raw, access, m);
    case LogoutRequest(raw, access) => LogOutExactly(cfg, h, raw, access);
    case ForgotRequest(email, raw) => AccountExactly(cfg, h, email);
    case ResetRequest(raw, hash) => ResetPasswordExactly(cfg, h, raw, hash);
    case GoogleRequest(_) =>
    case CallbackRequest(state, answer, id, m) => GoogleCallbackExactly(cfg, h, state, answer, id, m);
  }
}
