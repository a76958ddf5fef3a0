/** Which signed tokens `get_current_user` accepts, read off the log of a run. */
module AcceptanceLaws {
  import opened Wrappers
  import opened Redis
  import opened Auth
  import opened Runs
  import opened Invariants
  import opened SessionLaws
  import opened BlacklistLaws
  import opened Provenance
  import opened FirstSession

  // ----- Who signed a token -----

  function MintOf(e: Event): Option<Mint> {
    match e
    case LoginRequest(_, _, m) => Some(m)
    case RefreshRequest(_, _, m) => Some(m)
    case CallbackRequest(_, _, _, m) => Some(m)
    case _ => None
  }

  /** The claims a record signed under `raw`: of an access or a refresh token of
      the user it opened or continued a session for. */
  function ClaimsBy(cfg: Settings, r: Record, raw: string): (c: Option<Claims>)
    ensures c.Some? ==> c.value.sub.Some? && c.value.jti.Some? && c.value.exp.Some?
  {
    var m := MintOf(r.event);
    if m.None? || !(r.reply.SignedIn? || r.reply.Refreshed? || r.reply.GoogleSignedIn?) then None
    else if raw == m.value.refresh then
      Some(Claims(Some(r.reply.user), Some(m.value.refreshJti), Some(Seconds(r.at) + cfg.refreshDays * 86400)))
    else if raw == m.value.access then
      Some(Claims(Some(r.reply.user), Some(m.value.accessJti), Some(Seconds(r.at) + cfg.accessMinutes * 60)))
    else None
  }

  function ClaimsOf(cfg: Settings, log: seq<Record>, raw: string): (c: Option<Claims>)
    ensures c.Some? ==> c.value.sub.Some? && c.value.jti.Some? && c.value.exp.Some?
  {
    if log == [] then None
    else
      var c := ClaimsBy(cfg, log[|log| - 1], raw);
      if c.Some? then c else ClaimsOf(cfg, log[..|log| - 1], raw)
  }

  function SignedAs(s: State, raw: string): Option<Claims> {
    if raw in s.signed then Some(s.signed[raw]) else None
  }

  lemma CallbackSigns(cfg: Settings, s: State, state: string, answer: Option<GoogleInfo>, id: UserId, m: Mint, raw: string)
    ensures var (t, r) := GoogleCallback(cfg, s, state, answer, id, m);
      var c := ClaimsBy(cfg, Record(s.now, CallbackRequest(state, answer, id, m), r), raw);
      SignedAs(t, raw) == if c.Some? then c else SignedAs(s, raw)
  {
  }

  lemma SignInSigns(cfg: Settings, s: State, email: string, password: string, m: Mint, raw: string)
    ensures var (t, r) := SignIn(cfg, s, email, password, m);
      var c := ClaimsBy(cfg, Record(s.now, LoginRequest(email, password, m), r), raw);
      SignedAs(t, raw) == if c.Some? then c else SignedAs(s, raw)
  {
  }

  lemma RefreshSigns(cfg: Settings, s: State, used: string, access: Option<string>, m: Mint, raw: string)
    ensures var (t, r) := RefreshSession(cfg, s, used, access, m);
      var c := ClaimsBy(cfg, Record(s.now, RefreshRequest(used, access, m), r), raw);
      SignedAs(t, raw) == if c.Some? then c else SignedAs(s, raw)
  {
  }

  lemma StepSigns(cfg: Settings, s: State, e: Event, raw: string)
    ensures var (t, r) := Step(cfg, s, e);
      var c := ClaimsBy(cfg, Record(s.now, e, r), raw);
      SignedAs(t, raw) == if c.Some? then c else SignedAs(s, raw)
  {
    match e
    case LoginRequest(email, password, m) => SignInSigns(cfg, s, email, password, m, raw);
    case RefreshRequest(used, access, m) => RefreshSigns(cfg, s, used, access, m, raw);
    case CallbackRequest(state, answer, id, m) => CallbackSigns(cfg, s, state, answer, id, m, raw);
    case LogoutRequest(_, _) =>
    case ResetRequest(_, _) =>
    case _ => QuietStep(cfg, s, e);
  }

  lemma {:induction false} SignedExactly(cfg: Settings, h: History, raw: string)
    ensures SignedAs(After(cfg, h), raw) == ClaimsOf(cfg, Log(cfg, h), raw)
  {
    match h
    case Start =>
    case Then(g, e) =>
      SignedExactly(cfg, g, raw);
      StepSigns(cfg, After(cfg, g), e, raw);
      assert Log(cfg, h)[..|Log(cfg, h)| - 1] == Log(cfg, g);
  }

  /** Whoever signed tokens name exists and is verified. */
  ghost predicate SubjectsVerified(s: State) {
    forall raw :: raw in s.signed ==> s.signed[raw].sub.Some? && IsVerified(s.db, s.signed[raw].sub.value)
  }

  lemma StepSubjects(cfg: Settings, s: State, e: Event)
    requires Inv(s) && Fresh(s, e) && SubjectsVerified(s)
    ensures SubjectsVerified(Step(cfg, s, e).0)
  {
    StepGrows(cfg, s, e);
    StepKeeps(cfg, s, e);
    var (t, r) := Step(cfg, s, e);
    forall raw | raw in t.signed && raw !in s.signed ensures t.signed[raw].sub.Some? && IsVerified(t.db, t.signed[raw].sub.value) {
      NewSubject(cfg, s, e, raw);
    }
  }

  lemma NewSubject(cfg: Settings, s: State, e: Event, raw: string)
    requires Inv(s) && Fresh(s, e) && raw in Step(cfg, s, e).0.signed && raw !in s.signed
    ensures var (t, r) := Step(cfg, s, e);
      t.signed[raw].sub.Some? && IsVerified(t.db, t.signed[raw].sub.value)
  {
    match e
    case CallbackRequest(state, answer, id, m) => UpsertKeeps(s.db, answer.value, id);
    case LoginRequest(_, _, _) =>
    case RefreshRequest(_, _, _) =>
    case LogoutRequest(_, _) =>
    case ResetRequest(_, _) =>
    case _ => QuietStep(cfg, s, e);
  }

  lemma {:induction false} SubjectsAreVerified(cfg: Settings, h: History)
    requires Valid(cfg, h)
    ensures SubjectsVerified(After(cfg, h))
  {
    if h.Then? {
      SubjectsAreVerified(cfg, h.before);
      Reachable(cfg, h.before);
      StepSubjects(cfg, After(cfg, h.before), h.event);
    }
  }

  // ----- Who revoked it -----

  /** Record `i` presents a token signed before it as the access token of a
      logout, or of a refresh that goes through. */
  predicate Surrenders(cfg: Settings, log: seq<Record>, i: nat, raw: string) {
    && i < |log| && raw != "" && ClaimsOf(cfg, log[..i], raw).Some?
    && (log[i].event.LogoutRequest? || (log[i].event.RefreshRequest? && log[i].reply.Refreshed?))
    && log[i].event.access == Some(raw)
  }

  ghost predicate Surrendered(cfg: Settings, log: seq<Record>, raw: string) {
    exists i: nat :: Surrenders(cfg, log, i, raw)
  }

  lemma SurrenderedAppend(cfg: Settings, log: seq<Record>, r: Record, raw: string)
    ensures Surrendered(cfg, log + [r], raw) <==> Surrendered(cfg, log, raw) || Surrenders(cfg, log + [r], |log|, raw)
  {
    forall i: nat | i < |log| ensures Surrenders(cfg, log + [r], i, raw) <==> Surrenders(cfg, log, i, raw) {
      assert (log + [r])[..i] == log[..i];
    }
    if Surrendered(cfg, log, raw) {
      var i: nat :| Surrenders(cfg, log, i, raw);
      assert Surrenders(cfg, log + [r], i, raw);
    }
  }

  lemma {:induction false} SignedBefore(cfg: Settings, log: seq<Record>, i: nat, raw: string)
    requires i <= |log| && ClaimsOf(cfg, log[..i], raw).Some?
    ensures ClaimsOf(cfg, log, raw).Some?
  {
    if i == |log| {
      assert log[..i] == log;
    } else {
      assert log[..|log| - 1][..i] == log[..i];
      SignedBefore(cfg, log[..|log| - 1], i, raw);
    }
  }

  /** What one step revokes of a token signed before it. */
  lemma RevokedNow(cfg: Settings, s: State, e: Event, raw: string)
    requires JtisUnique(s.signed) && raw in s.signed && s.signed[raw].exp.value > 0
    ensures s.signed[raw].jti.value in RevokedBy(s, e) <==>
      raw != "" && (e.LogoutRequest? || (e.RefreshRequest? && Step(cfg, s, e).1.Refreshed?)) && e.access == Some(raw)
  {
  }

  /** The jti of a signed token was revoked exactly when the log shows the token
      itself presented as the access token of a logout or a successful refresh. */
  lemma {:induction false} RevokedExactly(cfg: Settings, h: History, raw: string)
    requires Valid(cfg, h)
    requires ClaimsOf(cfg, Log(cfg, h), raw).Some? && ClaimsOf(cfg, Log(cfg, h), raw).value.exp.value > 0
    ensures ClaimsOf(cfg, Log(cfg, h), raw).value.jti.value in EverRevoked(cfg, h) <==> Surrendered(cfg, Log(cfg, h), raw)
  {
    match h
    case Start =>
    case Then(g, e) =>
      var s, log := After(cfg, g), Log(cfg, g);
      var r := Record(s.now, e, Step(cfg, s, e).1);
      assert Log(cfg, h) == log + [r] && (log + [r])[..|log|] == log;
      SignedExactly(cfg, g, raw);
      SignedExactly(cfg, h, raw);
      SurrenderedAppend(cfg, log, r, raw);
      Reachable(cfg, g);
      if raw in s.signed {
        RunsGrow(cfg, g, h);
        RevokedExactly(cfg, g, raw);
        RevokedNow(cfg, s, e, raw);
      } else {
        NotYetSigned(cfg, g, e, raw);
      }
  }

  lemma RevokesSigned(s: State, e: Event)
    ensures forall j :: j in RevokedBy(s, e) ==> exists t :: Names(s.signed, t, j)
  {
    if RevokedBy(s, e) != {} {
      assert Names(s.signed, e.access.value, s.signed[e.access.value].jti.value);
    }
  }

  lemma FreshJtiNotRevoked(s: State, t: State, e: Event, revoked: set<string>, raw: string)
    requires Faithful(s, revoked) && JtisUnique(t.signed) && raw !in s.signed && raw in t.signed
    requires forall r :: r in s.signed ==> r in t.signed && t.signed[r] == s.signed[r]
    ensures t.signed[raw].jti.value !in revoked + RevokedBy(s, e)
  {
    RevokesSigned(s, e);
    assert forall r :: Names(s.signed, r, t.signed[raw].jti.value) ==> r == raw;
  }

  lemma NotYetSurrendered(cfg: Settings, g: History, raw: string)
    requires raw !in After(cfg, g).signed
    ensures !Surrendered(cfg, Log(cfg, g), raw)
  {
    SignedExactly(cfg, g, raw);
    if Surrendered(cfg, Log(cfg, g), raw) {
      var i: nat :| Surrenders(cfg, Log(cfg, g), i, raw);
      SignedBefore(cfg, Log(cfg, g), i, raw);
    }
  }

  lemma NotYetSigned(cfg: Settings, g: History, e: Event, raw: string)
    requires Valid(cfg, Then(g, e)) && raw !in After(cfg, g).signed
    requires ClaimsOf(cfg, Log(cfg, Then(g, e)), raw).Some?
    ensures ClaimsOf(cfg, Log(cfg, Then(g, e)), raw).value.jti.value !in EverRevoked(cfg, Then(g, e))
    ensures !Surrendered(cfg, Log(cfg, g), raw)
  {
    var h := Then(g, e);
    RunsAreFaithful(cfg, g);
    Reachable(cfg, h);
    RunsGrow(cfg, g, h);
    SignedExactly(cfg, h, raw);
    FreshJtiNotRevoked(After(cfg, g), After(cfg, h), e, EverRevoked(cfg, g), raw);
    NotYetSurrendered(cfg, g, raw);
  }

  // ----- What is accepted -----

  /** In any state, for any signed token, whatever claims it lacks: it is
      accepted for `u` exactly when it names `u`, who exists, carries a jti
      without a live blacklist entry, and has not expired. */
  lemma AnyTokenExactly(s: State, raw: string, u: UserId)
    ensures CurrentUser(s, raw) == Some(u) <==>
      && raw in s.signed && s.signed[raw].sub == Some(u) && u in s.db.users
      && (s.signed[raw].exp.Some? ==> s.now < s.signed[raw].exp.value * TICKS_PER_SECOND)
      && s.signed[raw].jti.Some? && s.signed[raw].jti.value != ""
      && !Exists(s.redis.blacklist, s.now, s.signed[raw].jti.value)
  {
  }

  /** `get_current_user` accepts a token exactly when some sign-in, refresh or
      callback of the run signed it, its whole-second expiry lies ahead, and it
      was not handed in since as the access token of a logout or a successful
      refresh; the answer is the user of that session, who is verified. */
  lemma AcceptedExactly(cfg: Settings, h: History, raw: string)
    requires Valid(cfg, h)
    ensures var c, now := ClaimsOf(cfg, Log(cfg, h), raw), After(cfg, h).now;
      CurrentUser(After(cfg, h), raw) ==
        if c.Some? && now < c.value.exp.value * TICKS_PER_SECOND && !Surrendered(cfg, Log(cfg, h), raw)
        then c.value.sub else None
    ensures CurrentUser(After(cfg, h), raw).Some? ==> IsVerified(After(cfg, h).db, CurrentUser(After(cfg, h), raw).value)
  {
    SignedExactly(cfg, h, raw);
    BlacklistRefinesPermanentSet(cfg, h, raw);
    Reachable(cfg, h);
    SubjectsAreVerified(cfg, h);
    var c := ClaimsOf(cfg, Log(cfg, h), raw);
    if c.Some? && c.value.exp.value > 0 {
      RevokedExactly(cfg, h, raw);
    }
  }

  // ----- After a logout -----

  /** Record `i` opened or continued a session with these two tokens. */
  predicate Opened(log: seq<Record>, i: nat, m: Mint) {
    i < |log| && MintOf(log[i].event) == Some(m)
    && (log[i].reply.SignedIn? || log[i].reply.Refreshed? || log[i].reply.GoogleSignedIn?)
  }

  /** No later record signs the same token again. */
  lemma {:induction false} ClaimsStand(cfg: Settings, h: History, i: nat, raw: string)
    requires Valid(cfg, h) && i < |Log(cfg, h)| && ClaimsBy(cfg, Log(cfg, h)[i], raw).Some?
    ensures ClaimsOf(cfg, Log(cfg, h), raw) == ClaimsBy(cfg, Log(cfg, h)[i], raw)
  {
    var g, log := h.before, Log(cfg, h.before);
    assert Log(cfg, h)[..|log|] == log;
    if i < |log| {
      assert Log(cfg, h)[i] == log[i];
      ClaimsStand(cfg, g, i, raw);
      SignedExactly(cfg, g, raw);
      RunsGrow(cfg, g, h);
      SignedExactly(cfg, h, raw);
    }
  }

  lemma {:induction false} LogExtends(cfg: Settings, g: History, h: History)
    requires Extends(h, g)
    ensures Log(cfg, g) <= Log(cfg, h)
  {
    if h != g {
      LogExtends(cfg, g, h.before);
    }
  }

  /** After a logout with both tokens of a session its access token is never
      accepted again, and no refresh exchanges its refresh token. But
      `get_current_user` does not tell the two kinds apart: the refresh token
      is accepted exactly until its own expiry, unless it was itself handed in
      as an access token. */
  lemma SessionAfterLogout(cfg: Settings, g: History, h: History, i: nat, m: Mint)
    requires Valid(cfg, h) && Extends(h, Then(g, LogoutRequest(Some(m.refresh), Some(m.access))))
    requires Opened(Log(cfg, g), i, m) && m.access != "" && m.refresh != ""
    ensures CurrentUser(After(cfg, h), m.access) == None && Dead(After(cfg, h), m.refresh)
    ensures var r := Log(cfg, g)[i];
      CurrentUser(After(cfg, h), m.refresh).Some? <==>
        After(cfg, h).now < (Seconds(r.at) + cfg.refreshDays * 86400) * TICKS_PER_SECOND
        && !Surrendered(cfg, Log(cfg, h), m.refresh)
  {
    var g' := Then(g, LogoutRequest(Some(m.refresh), Some(m.access)));
    RunsGrow(cfg, g', h);
    LogExtends(cfg, g', h);
    OpenedDiffer(cfg, g, i, m);
    ClaimsStand(cfg, g, i, m.access);
    SignedExactly(cfg, g, m.access);
    ClaimsStand(cfg, g, i, m.refresh);
    SignedExactly(cfg, g, m.refresh);
    LoggedOutTokenIsRefused(cfg, g, h, Some(m.refresh), m.access);
    LogOutIsFinal(cfg, g, h, m.refresh, Some(m.access));
    ClaimsStand(cfg, h, i, m.refresh);
    AcceptedExactly(cfg, h, m.refresh);
  }

  lemma {:induction false} OpenedDiffer(cfg: Settings, h: History, i: nat, m: Mint)
    requires Valid(cfg, h) && Opened(Log(cfg, h), i, m)
    ensures m.access != m.refresh
  {
    if i < |Log(cfg, h.before)| {
      OpenedDiffer(cfg, h.before, i, m);
    }
  }

  lemma LogOutKeepsRefreshToken(cfg: Settings, s: State)
    requires JustOpened(cfg, s) && cfg.refreshDays > 0
    ensures CurrentUser(LogOut(s, Some(MINT.refresh), Some(MINT.access)).0, MINT.refresh) == Some(USER)
  {
  }

  /** It does happen: a logged-out session whose refresh token still
      authenticates requests. */
  lemma RefreshTokenSurvivesLogout(cfg: Settings) returns (h: History)
    requires Positive(cfg) && cfg.refreshDays > 0
    ensures Valid(cfg, h) && h == Then(Opening(), LogoutRequest(Some(MINT.refresh), Some(MINT.access)))
    ensures CurrentUser(After(cfg, h), MINT.refresh) == Some(USER)
    ensures CurrentUser(After(cfg, h), MINT.access) == None && Dead(After(cfg, h), MINT.refresh)
  {
    OpensSession(cfg);
    h := Then(Opening(), LogoutRequest(Some(MINT.refresh), Some(MINT.access)));
    LogOutKeepsRefreshToken(cfg, After(cfg, Opening()));
    LoggedOutTokenIsRefused(cfg, Opening(), h, Some(MINT.refresh), MINT.access);
    LogOutIsFinal(cfg, Opening(), h, MINT.refresh, Some(MINT.access));
  }

  // ----- After a password reset -----

  /** After a successful reset a token signed for that user before it, access or
      refresh, is never exchanged again, yet accepted exactly as if there had
      been no reset: until its expiry, unless handed in as an access token. */
  lemma TokenAfterReset(cfg: Settings, g: History, h: History, secret: string, hash: string, u: UserId, raw: string)
    requires Valid(cfg, h) && Extends(h, Then(g, ResetRequest(secret, hash)))
    requires ResetPassword(After(cfg, g), secret, hash).1 == PasswordReset(u)
    requires ClaimsOf(cfg, Log(cfg, g), raw).Some? && ClaimsOf(cfg, Log(cfg, g), raw).value.sub == Some(u)
    ensures Dead(After(cfg, h), raw)
    ensures var exp := ClaimsOf(cfg, Log(cfg, g), raw).value.exp.value;
      CurrentUser(After(cfg, h), raw) ==
        if After(cfg, h).now < exp * TICKS_PER_SECOND && !Surrendered(cfg, Log(cfg, h), raw) then Some(u) else None
  {
    var g' := Then(g, ResetRequest(secret, hash));
    RunsGrow(cfg, g', h);
    RunsGrow(cfg, g, g');
    SignedExactly(cfg, g, raw);
    SignedExactly(cfg, h, raw);
    ResetIsFinal(cfg, g, h, secret, hash, u, raw);
    AcceptedExactly(cfg, h, raw);
  }

  lemma BothAccepted(cfg: Settings, s: State)
    requires JustOpened(cfg, s)
    ensures cfg.accessMinutes > 0 ==> CurrentUser(s, MINT.access) == Some(USER)
    ensures cfg.refreshDays > 0 ==> CurrentUser(s, MINT.refresh) == Some(USER)
  {
  }

  lemma ResetFollows(cfg: Settings, s: State, secret: string, hash: string)
    requires Positive(cfg) && JustOpened(cfg, s)
    ensures var t := RequestReset(cfg, s, INFO.email, secret).0;
      && t.signed == s.signed && t.now == s.now && t.db == s.db && t.redis.blacklist == s.redis.blacklist
      && ResetPassword(t, secret, hash).1 == PasswordReset(USER)
  {
    assert s.db.users[USER].email == INFO.email;
    var t := RequestReset(cfg, s, INFO.email, secret).0;
    assert Get(t.redis.reset, t.now, Sha256(secret)) == Some(Uuid(USER));
  }

  lemma SameAnswer(s: State, t: State, raw: string)
    requires t.signed == s.signed && t.now == s.now && t.db == s.db && t.redis.blacklist == s.redis.blacklist
    ensures CurrentUser(t, raw) == CurrentUser(s, raw)
  {
  }

  /** It does happen: in this run both tokens of the session opened before a
      successful reset still authenticate. */
  lemma TokensSurviveReset(cfg: Settings, secret: string, hash: string) returns (h: History)
    requires Positive(cfg) && cfg.refreshDays > 0 && cfg.accessMinutes > 0 && secret != "state"
    ensures Valid(cfg, h) && h == Then(Then(Opening(), ForgotRequest(INFO.email, secret)), ResetRequest(secret, hash))
    ensures Step(cfg, After(cfg, h.before), h.event).1 == PasswordReset(USER)
    ensures CurrentUser(After(cfg, h), MINT.access) == CurrentUser(After(cfg, h), MINT.refresh) == Some(USER)
    ensures Dead(After(cfg, h), MINT.refresh)
  {
    OpensSession(cfg);
    var s := After(cfg, Opening());
    var g := Then(Opening(), ForgotRequest(INFO.email, secret));
    h := Then(g, ResetRequest(secret, hash));
    ResetFollows(cfg, s, secret, hash);
    BothAccepted(cfg, s);
    forall raw ensures CurrentUser(After(cfg, h), raw) == CurrentUser(s, raw) {
      SameAnswer(s, After(cfg, g), raw);
      ResetRevokesNothing(cfg, g, secret, hash, raw);
    }
    ResetIsFinal(cfg, g, h, secret, hash, USER, MINT.refresh);
  }

  // ----- A verifier with a leeway -----

  function CurrentUserWithin(s: State, raw: string, leeway: nat): Option<UserId> {
    AcceptWithin(s, raw, Blacklisted(s), leeway)
  }

  lemma LogOutWrites(s: State, refresh: Option<string>, raw: string)
    requires JtisUnique(s.signed) && raw != "" && raw in s.signed && s.signed[raw].exp.value > Seconds(s.now)
    ensures var t, c := LogOut(s, refresh, Some(raw)).0, s.signed[raw];
      && t.signed == s.signed && t.now == s.now && t.db.users == s.db.users
      && t.redis.blacklist == s.redis.blacklist[c.jti.value := Entry((), Some(EntryEnd(c.exp.value, s.now)))]
  {
  }

  lemma EntryDecides(s: State, raw: string, end: Time, leeway: nat)
    requires JtisUnique(s.signed) && SubjectsVerified(s) && raw in s.signed && s.signed[raw].jti.value in s.redis.blacklist
    requires s.redis.blacklist[s.signed[raw].jti.value] == Entry((), Some(end))
    ensures CurrentUserWithin(s, raw, leeway).Some? <==>
      end <= s.now < s.signed[raw].exp.value * TICKS_PER_SECOND + leeway
  {
  }

  lemma ReturnsAfterLogOut(s: State, refresh: Option<string>, raw: string, d: nat, leeway: nat)
    requires JtisUnique(s.signed) && SubjectsVerified(s) && raw != "" && raw in s.signed
    requires s.signed[raw].exp.value > Seconds(s.now)
    ensures var t, exp := LogOut(s, refresh, Some(raw)).0, s.signed[raw].exp.value;
      CurrentUserWithin(t.(now := s.now + d), raw, leeway).Some? <==>
        exp * TICKS_PER_SECOND + s.now % TICKS_PER_SECOND <= s.now + d < exp * TICKS_PER_SECOND + leeway
  {
    LogOutWrites(s, refresh, raw);
    var t := LogOut(s, refresh, Some(raw)).0;
    EntryDecides(t.(now := s.now + d), raw, EntryEnd(s.signed[raw].exp.value, s.now), leeway);
    EntryOutlivesToken(s.signed[raw].exp.value, s.now);
  }

  /** A token logged out while it had whole seconds left is accepted again, by
      a verifier that allows `leeway` past its expiry, exactly from the end of
      its blacklist entry, the sub-second part of the logout later than its
      expiry, until the leeway runs out. */
  lemma RevokedTokenReturns(cfg: Settings, g: History, refresh: Option<string>, raw: string, d: nat, leeway: nat)
    requires Valid(cfg, g) && raw != "" && raw in After(cfg, g).signed && After(cfg, g).signed[raw].exp.Some?
    requires After(cfg, g).signed[raw].exp.value > Seconds(After(cfg, g).now)
    ensures var exp, at := After(cfg, g).signed[raw].exp.value, After(cfg, g).now;
      var h := Then(Then(g, LogoutRequest(refresh, Some(raw))), Tick(d));
      CurrentUserWithin(After(cfg, h), raw, leeway).Some? <==>
        exp * TICKS_PER_SECOND + at % TICKS_PER_SECOND <= at + d < exp * TICKS_PER_SECOND + leeway
  {
    Reachable(cfg, g);
    SubjectsAreVerified(cfg, g);
    ReturnsAfterLogOut(After(cfg, g), refresh, raw, d, leeway);
  }

  ghost predicate RefinesPermanentSet(cfg: Settings, leeway: nat) {
    forall h, raw :: Valid(cfg, h) ==>
      CurrentUserWithin(After(cfg, h), raw, leeway) == AcceptWithin(After(cfg, h), raw, EverRevoked(cfg, h), leeway)
  }

  lemma ReturnsInOpening(cfg: Settings, leeway: nat) returns (h: History)
    requires Positive(cfg) && cfg.accessMinutes > 0 && leeway > 0
    ensures Valid(cfg, h) && CurrentUserWithin(After(cfg, h), MINT.access, leeway).Some?
    ensures AcceptWithin(After(cfg, h), MINT.access, EverRevoked(cfg, h), leeway) == None
  {
    var d := cfg.accessMinutes * 60 * TICKS_PER_SECOND;
    OpensSession(cfg);
    RevokedTokenReturns(cfg, Opening(), None, MINT.access, d, leeway);
    var g := Then(Opening(), LogoutRequest(None, Some(MINT.access)));
    h := Then(g, Tick(d));
    RevokedNow(cfg, After(cfg, Opening()), g.event, MINT.access) by { Reachable(cfg, Opening()); }
    assert EverRevoked(cfg, h) == EverRevoked(cfg, g) + {};
  }

  /** The self-expiring blacklist answers like a permanent one in every run
      exactly when the verifier allows no leeway. */
  lemma RefinementNeedsStrictExpiry(cfg: Settings, leeway: nat)
    requires Positive(cfg) && cfg.accessMinutes > 0
    ensures RefinesPermanentSet(cfg, leeway) <==> leeway == 0
  {
    if leeway == 0 {
      forall h, raw | Valid(cfg, h)
        ensures CurrentUserWithin(After(cfg, h), raw, 0) == AcceptWithin(After(cfg, h), raw, EverRevoked(cfg, h), 0)
      {
        BlacklistRefinesPermanentSet(cfg, h, raw);
      }
    } else {
      var h := ReturnsInOpening(cfg, leeway);
    }
  }
}
