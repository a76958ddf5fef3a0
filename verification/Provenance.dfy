/** Every decision of the core read off the log of a run: who is verified,
    which password counts and which refresh token can be exchanged. */
module Provenance {
  import opened Wrappers
  import opened Redis
  import opened Auth
  import opened Runs
  import opened Invariants
  import opened SessionLaws

  // ----- Verification -----

  /** A verification token of `u` was redeemed, or Google vouched for `u`. */
  predicate Vouches(r: Reply, u: UserId) { r == EmailVerified(u) || (r.GoogleSignedIn? && r.user == u) }

  ghost predicate Vouched(log: seq<Record>, u: UserId) {
    exists i :: 0 <= i < |log| && Vouches(log[i].reply, u)
  }

  lemma VouchedAppend(log: seq<Record>, r: Record, u: UserId)
    ensures Vouched(log + [r], u) <==> Vouched(log, u) || Vouches(r.reply, u)
  {
    if Vouched(log, u) {
      var i :| 0 <= i < |log| && Vouches(log[i].reply, u);
      assert (log + [r])[i] == log[i];
    }
    if Vouches(r.reply, u) {
      assert (log + [r])[|log|] == r;
    }
  }

  ghost predicate IsVerified(db: Db, u: UserId) { u in db.users && db.users[u].verified }

  lemma UpsertVouches(db: Db, info: GoogleInfo, id: UserId, u: UserId)
    requires Consistent(db) && VerifiedOnly(db) && id !in db.users && UpsertGoogleUser(db, info, id).Ok?
    ensures var up := UpsertGoogleUser(db, info, id).value;
      IsVerified(up.db, u) <==> IsVerified(db, u) || up.user == u
  {
  }

  lemma CallbackVouches(cfg: Settings, s: State, state: string, answer: Option<GoogleInfo>, id: UserId, m: Mint, u: UserId)
    requires Inv(s) && id !in s.db.users
    ensures var (t, r) := GoogleCallback(cfg, s, state, answer, id, m);
      IsVerified(t.db, u) <==> IsVerified(s.db, u) || Vouches(r, u)
  {
    if GoogleCallback(cfg, s, state, answer, id, m).1.GoogleSignedIn? {
      UpsertVouches(s.db, answer.value, id, u);
    }
  }

  lemma VerifyVouches(s: State, raw: string, u: UserId)
    ensures var (t, r) := VerifyEmail(s, raw);
      IsVerified(t.db, u) <==> IsVerified(s.db, u) || Vouches(r, u)
  {
  }

  lemma SignUpVouches(cfg: Settings, s: State, email: string, first: string, last: Option<string>,
                      hash: string, id: UserId, raw: string, u: UserId)
    requires id !in s.db.users
    ensures var (t, r) := SignUp(cfg, s, email, first, last, hash, id, raw);
      !Vouches(r, u) && (IsVerified(t.db, u) <==> IsVerified(s.db, u))
  {
  }

  /** The session handlers leave the users alone. */
  lemma SessionStepVouches(cfg: Settings, s: State, e: Event, u: UserId)
    requires e.LoginRequest? || e.RefreshRequest? || e.LogoutRequest?
    ensures var (t, r) := Step(cfg, s, e); t.db.users == s.db.users && !Vouches(r, u)
  {
  }

  lemma StepVouches(cfg: Settings, s: State, e: Event, u: UserId)
    requires Inv(s) && Fresh(s, e)
    ensures IsVerified(Step(cfg, s, e).0.db, u) <==> IsVerified(s.db, u) || Vouches(Step(cfg, s, e).1, u)
  {
    match e
    case CallbackRequest(state, answer, id, m) => CallbackVouches(cfg, s, state, answer, id, m, u);
    case VerifyRequest(raw) => VerifyVouches(s, raw, u);
    case SignupRequest(email, first, last, hash, id, raw) => SignUpVouches(cfg, s, email, first, last, hash, id, raw, u);
    case ResetRequest(_, _) =>
    case ForgotRequest(_, _) =>
    case ResendRequest(_, _) =>
    case GoogleRequest(_) =>
    case Tick(_) =>
    case _ => SessionStepVouches(cfg, s, e, u);
  }

  /** In every run exactly those users are verified who redeemed a verification
      token or were signed in by Google. */
  lemma {:induction false} VerifiedExactly(cfg: Settings, h: History, u: UserId)
    requires Valid(cfg, h)
    ensures IsVerified(After(cfg, h).db, u) <==> Vouched(Log(cfg, h), u)
  {
    if h.Then? {
      var s := After(cfg, h.before);
      VerifiedExactly(cfg, h.before, u);
      Reachable(cfg, h.before);
      StepVouches(cfg, s, h.event, u);
      VouchedAppend(Log(cfg, h.before), Record(s.now, h.event, Step(cfg, s, h.event).1), u);
    }
  }

  // ----- Passwords -----

  /** The hash set by the signup or the latest password reset of `u`. */
  function LatestHash(log: seq<Record>, u: UserId): Option<string> {
    if log == [] then None
    else
      var r := log[|log| - 1];
      if r.reply == SignedUp(u) && r.event.SignupRequest? then Some(r.event.passwordHash)
      else if r.reply == PasswordReset(u) && r.event.ResetRequest? then Some(r.event.newHash)
      else LatestHash(log[..|log| - 1], u)
  }

  ghost function StoredHash(db: Db, u: UserId): Option<string> {
    if u in db.users then db.users[u].passwordHash else None
  }

  lemma CallbackHash(cfg: Settings, s: State, state: string, answer: Option<GoogleInfo>, id: UserId, m: Mint, u: UserId)
    requires id !in s.db.users
    ensures StoredHash(GoogleCallback(cfg, s, state, answer, id, m).0.db, u) == StoredHash(s.db, u)
  {
  }

  lemma SignUpHash(cfg: Settings, s: State, email: string, first: string, last: Option<string>,
                   hash: string, id: UserId, raw: string, u: UserId)
    ensures var (t, r) := SignUp(cfg, s, email, first, last, hash, id, raw);
      StoredHash(t.db, u) == if r == SignedUp(u) then Some(hash) else StoredHash(s.db, u)
  {
  }

  lemma ResetHash(s: State, raw: string, hash: string, u: UserId)
    ensures var (t, r) := ResetPassword(s, raw, hash);
      StoredHash(t.db, u) == if r == PasswordReset(u) then Some(hash) else StoredHash(s.db, u)
  {
  }

  lemma StepHash(cfg: Settings, s: State, e: Event, u: UserId)
    requires Fresh(s, e)
    ensures var (t, r) := Step(cfg, s, e);
      StoredHash(t.db, u) == if r == SignedUp(u) && e.SignupRequest? then Some(e.passwordHash)
                             else if r == PasswordReset(u) && e.ResetRequest? then Some(e.newHash)
                             else StoredHash(s.db, u)
  {
    match e
    case CallbackRequest(state, answer, id, m) => CallbackHash(cfg, s, state, answer, id, m, u);
    case SignupRequest(email, first, last, hash, id, raw) => SignUpHash(cfg, s, email, first, last, hash, id, raw, u);
    case ResetRequest(raw, hash) => ResetHash(s, raw, hash, u);
    case _ =>
  }

  /** The password a sign-in is checked against is the one of the latest reset,
      or else of the signup; a Google account has none until a reset. */
  lemma {:induction false} PasswordExactly(cfg: Settings, h: History, u: UserId)
    requires Valid(cfg, h)
    ensures StoredHash(After(cfg, h).db, u) == LatestHash(Log(cfg, h), u)
  {
    if h.Then? {
      PasswordExactly(cfg, h.before, u);
      Reachable(cfg, h.before);
      StepHash(cfg, After(cfg, h.before), h.event, u);
      assert Log(cfg, h)[..|Log(cfg, h)| - 1] == Log(cfg, h.before);
    }
  }

  // ----- Refresh tokens -----

  datatype Lease = Lease(user: UserId, at: Time)

  /** The user for whom a record hands out the refresh token `raw`. */
  predicate HandsOut(r: Reply, raw: string) {
    (r.SignedIn? && r.refresh == raw) || (r.GoogleSignedIn? && r.refresh == raw) || (r.Refreshed? && r.minted == raw)
  }

  predicate TakesBack(r: Record, raw: string, u: UserId) {
    || (r.reply.Refreshed? && r.reply.spent == raw)
    || (r.event.LogoutRequest? && r.event.refresh == Some(raw) && r.reply.LoggedOut? && r.reply.closed.Some?)
    || r.reply == PasswordReset(u)
  }

  /** To whom and when `raw` was handed out, unless it was exchanged, logged out
      or wiped by a password reset of its user since. */
  function LeaseOf(log: seq<Record>, raw: string): Option<Lease> {
    if log == [] then None
    else LeaseAfter(LeaseOf(log[..|log| - 1], raw), log[|log| - 1], raw)
  }

  function LeaseAfter(l: Option<Lease>, r: Record, raw: string): Option<Lease> {
    if HandsOut(r.reply, raw) then Some(Lease(r.reply.user, r.at))
    else if l.Some? && TakesBack(r, raw, l.value.user) then None
    else l
  }

  /** The unrevoked row of `raw`, as the lease it must come from. */
  ghost predicate RowMatches(cfg: Settings, s: State, raw: string, l: Option<Lease>) {
    if l.None? then
      Sha256(raw) in s.db.refresh ==> s.db.refresh[Sha256(raw)].revoked
    else
      && Sha256(raw) in s.db.refresh
      && s.db.refresh[Sha256(raw)] ==
        RefreshRow(l.value.user, l.value.at + cfg.refreshDays * 86400 * TICKS_PER_SECOND, false)
  }

  lemma SignInLease(cfg: Settings, s: State, email: string, password: string, m: Mint, raw: string, l: Option<Lease>)
    requires RowsAreSigned(s) && FreshMint(s.signed, m) && RowMatches(cfg, s, raw, l)
    ensures var (t, r) := SignIn(cfg, s, email, password, m);
      RowMatches(cfg, t, raw, LeaseAfter(l, Record(s.now, LoginRequest(email, password, m), r), raw))
  {
  }

  lemma RefreshLease(cfg: Settings, s: State, used: string, access: Option<string>, m: Mint, raw: string, l: Option<Lease>)
    requires RowsAreSigned(s) && FreshMint(s.signed, m) && RowMatches(cfg, s, raw, l)
    ensures var (t, r) := RefreshSession(cfg, s, used, access, m);
      RowMatches(cfg, t, raw, LeaseAfter(l, Record(s.now, RefreshRequest(used, access, m), r), raw))
  {
  }

  lemma CallbackLease(cfg: Settings, s: State, state: string, answer: Option<GoogleInfo>, id: UserId, m: Mint,
                      raw: string, l: Option<Lease>)
    requires RowsAreSigned(s) && FreshMint(s.signed, m) && RowMatches(cfg, s, raw, l)
    ensures var (t, r) := GoogleCallback(cfg, s, state, answer, id, m);
      RowMatches(cfg, t, raw, LeaseAfter(l, Record(s.now, CallbackRequest(state, answer, id, m), r), raw))
  {
    CallbackRows(cfg, s, state, answer, id, m);
  }

  lemma LogOutLease(cfg: Settings, s: State, used: Option<string>, access: Option<string>, raw: string, l: Option<Lease>)
    requires RowMatches(cfg, s, raw, l)
    ensures var (t, r) := LogOut(s, used, access);
      RowMatches(cfg, t, raw, LeaseAfter(l, Record(s.now, LogoutRequest(used, access), r), raw))
  {
  }

  lemma ResetLease(cfg: Settings, s: State, used: string, hash: string, raw: string, l: Option<Lease>)
    requires RowMatches(cfg, s, raw, l)
    ensures var (t, r) := ResetPassword(s, used, hash);
      RowMatches(cfg, t, raw, LeaseAfter(l, Record(s.now, ResetRequest(used, hash), r), raw))
  {
  }

  lemma StepLease(cfg: Settings, s: State, e: Event, raw: string, l: Option<Lease>)
    requires RowsAreSigned(s) && Fresh(s, e) && RowMatches(cfg, s, raw, l)
    ensures RowMatches(cfg, Step(cfg, s, e).0, raw, LeaseAfter(l, Record(s.now, e, Step(cfg, s, e).1), raw))
  {
    match e
    case LoginRequest(email, password, m) => SignInLease(cfg, s, email, password, m, raw, l);
    case RefreshRequest(used, access, m) => RefreshLease(cfg, s, used, access, m, raw, l);
    case CallbackRequest(state, answer, id, m) => CallbackLease(cfg, s, state, answer, id, m, raw, l);
    case LogoutRequest(used, access) => LogOutLease(cfg, s, used, access, raw, l);
    case ResetRequest(used, hash) => ResetLease(cfg, s, used, hash, raw, l);
    case _ => QuietStep(cfg, s, e);
  }

  lemma {:induction false} RowsMatchLeases(cfg: Settings, h: History, raw: string)
    requires Valid(cfg, h)
    ensures RowMatches(cfg, After(cfg, h), raw, LeaseOf(Log(cfg, h), raw))
  {
    match h
    case Start =>
    case Then(g, e) =>
      RowsMatchLeases(cfg, g, raw);
      Reachable(cfg, g);
      assert Log(cfg, h)[..|Log(cfg, h)| - 1] == Log(cfg, g);
      StepLease(cfg, After(cfg, g), e, raw, LeaseOf(Log(cfg, g), raw));
  }

  /** A refresh goes through exactly when the log holds an open lease of the
      token that is no older than the refresh lifetime, and then for the user
      the token was handed out to. */
  lemma RefreshExactly(cfg: Settings, h: History, raw: string, access: Option<string>, m: Mint)
    requires Valid(cfg, h)
    ensures var l, now := LeaseOf(Log(cfg, h), raw), After(cfg, h).now;
      RefreshSession(cfg, After(cfg, h), raw, access, m).1 ==
        if l.Some? && now <= l.value.at + cfg.refreshDays * 86400 * TICKS_PER_SECOND
        then Refreshed(l.value.user, raw, m.refresh) else RefreshRejected
  {
    RowsMatchLeases(cfg, h, raw);
    Reachable(cfg, h);
  }
}
