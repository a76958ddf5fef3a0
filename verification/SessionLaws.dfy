/** Laws of refresh tokens over whole serial runs. */
module SessionLaws {
  import opened Wrappers
  import opened Redis
  import opened Auth
  import opened Runs
  import opened Invariants

  /** The handlers that leave refresh tokens alone. */
  predicate Quiet(e: Event) {
    e.Tick? || e.SignupRequest? || e.ResendRequest? || e.VerifyRequest? || e.ForgotRequest? || e.GoogleRequest?
  }

  lemma QuietStep(cfg: Settings, s: State, e: Event)
    requires Quiet(e)
    ensures Step(cfg, s, e).0.db.refresh == s.db.refresh
    ensures Step(cfg, s, e).0.signed == s.signed
    ensures var r := Step(cfg, s, e).1;
      !r.SignedIn? && !r.Refreshed? && !r.LoggedOut? && !r.PasswordReset? && !r.GoogleSignedIn?
  {
  }

  // ----- What never shrinks -----

  ghost predicate DbGrows(a: Db, b: Db) {
    && (forall u :: u in a.users ==>
          (u in b.users && b.users[u].email == a.users[u].email && (a.users[u].verified ==> b.users[u].verified)))
    && a.providers <= b.providers
  }

  ghost predicate Grows(s: State, t: State) {
    && s.now <= t.now
    && DbGrows(s.db, t.db)
    && (forall raw :: raw in s.signed ==> raw in t.signed && t.signed[raw] == s.signed[raw])
  }

  lemma OpenSessionGrows(cfg: Settings, s: State, u: UserId, m: Mint)
    requires FreshMint(s.signed, m)
    ensures Grows(s, OpenSession(cfg, s, u, m))
  {
  }

  lemma UpsertGrows(db: Db, info: GoogleInfo, id: UserId)
    requires id !in db.users && UpsertGoogleUser(db, info, id).Ok?
    ensures DbGrows(db, UpsertGoogleUser(db, info, id).value.db)
  {
  }

  lemma CallbackGrows(cfg: Settings, s: State, state: string, answer: Option<GoogleInfo>, id: UserId, m: Mint)
    requires id !in s.db.users && FreshMint(s.signed, m)
    ensures Grows(s, GoogleCallback(cfg, s, state, answer, id, m).0)
  {
    if GoogleCallback(cfg, s, state, answer, id, m).1.GoogleSignedIn? {
      var up := UpsertGoogleUser(s.db, answer.value, id).value;
      UpsertGrows(s.db, answer.value, id);
      OpenSessionGrows(cfg, s.(redis := s.redis.(oauth := Delete(s.redis.oauth, state)), db := up.db), up.user, m);
    }
  }

  lemma SignInGrows(cfg: Settings, s: State, email: string, password: string, m: Mint)
    requires FreshMint(s.signed, m)
    ensures Grows(s, SignIn(cfg, s, email, password, m).0)
  {
    if SignIn(cfg, s, email, password, m).1.SignedIn? {
      var s1 := s.(redis := s.redis.(failed := Delete(s.redis.failed, email)));
      OpenSessionGrows(cfg, s1, UserByEmail(s.db, email).value, m);
    }
  }

  lemma RefreshGrows(cfg: Settings, s: State, raw: string, access: Option<string>, m: Mint)
    requires FreshMint(s.signed, m)
    ensures Grows(s, RefreshSession(cfg, s, raw, access, m).0)
  {
    if Usable(s, raw) {
      var s1 := s.(redis := s.redis.(blacklist := BlacklistIfValid(s, access)));
      OpenSessionGrows(cfg, s1, s.db.refresh[Sha256(raw)].user, m);
    }
  }

  lemma SignUpGrows(cfg: Settings, s: State, email: string, first: string, last: Option<string>,
                    hash: string, id: UserId, raw: string)
    requires id !in s.db.users
    ensures Grows(s, SignUp(cfg, s, email, first, last, hash, id, raw).0)
  {
  }

  lemma VerifyGrows(s: State, raw: string)
    ensures Grows(s, VerifyEmail(s, raw).0)
  {
  }

  lemma ResetGrows(s: State, raw: string, hash: string)
    ensures Grows(s, ResetPassword(s, raw, hash).0)
  {
  }

  lemma StepGrows(cfg: Settings, s: State, e: Event)
    requires Inv(s) && Fresh(s, e)
    ensures Grows(s, Step(cfg, s, e).0)
  {
    match e
    case LoginRequest(email, password, m) => SignInGrows(cfg, s, email, password, m);
    case RefreshRequest(raw, access, m) => RefreshGrows(cfg, s, raw, access, m);
    case CallbackRequest(state, answer, id, m) => CallbackGrows(cfg, s, state, answer, id, m);
    case SignupRequest(email, first, last, hash, id, raw) => SignUpGrows(cfg, s, email, first, last, hash, id, raw);
    case VerifyRequest(raw) => VerifyGrows(s, raw);
    case ResetRequest(raw, hash) => ResetGrows(s, raw, hash);
    case _ =>
  }

  /** Users stay, keep their email and never lose verification; provider rows
      and signed tokens are never taken back. */
  lemma {:induction false} RunsGrow(cfg: Settings, g: History, h: History)
    requires Valid(cfg, h) && Extends(h, g)
    ensures Valid(cfg, g) && Grows(After(cfg, g), After(cfg, h))
  {
    if h != g {
      RunsGrow(cfg, g, h.before);
      Reachable(cfg, h.before);
      StepGrows(cfg, After(cfg, h.before), h.event);
    }
  }

  /** In every reachable state each refresh row and each Google link belongs to
      a verified user, and who was verified at any earlier point still is. */
  lemma VerifiedSessions(cfg: Settings, g: History, h: History)
    requires Valid(cfg, h) && Extends(h, g)
    ensures VerifiedOnly(After(cfg, h).db)
    ensures forall u :: u in After(cfg, g).db.users && After(cfg, g).db.users[u].verified ==>
      u in After(cfg, h).db.users && After(cfg, h).db.users[u].verified
  {
    Reachable(cfg, h);
    RunsGrow(cfg, g, h);
  }

  // ----- Dead tokens stay dead -----

  /** A token that was signed but cannot be exchanged: revoked, deleted, expired, or not a refresh token. */
  ghost predicate Dead(s: State, raw: string) {
    raw in s.signed && !Usable(s, raw)
  }

  /** Rows of tokens signed earlier are never inserted again; they keep owner
      and expiry, and revocation sticks. */
  ghost predicate RowsAge(s: State, t: State) {
    forall d :: d in t.db.refresh && d.raw in s.signed ==>
      (d in s.db.refresh && t.db.refresh[d].user == s.db.refresh[d].user
       && t.db.refresh[d].expiresAt == s.db.refresh[d].expiresAt
       && (s.db.refresh[d].revoked ==> t.db.refresh[d].revoked))
  }

  lemma SignInAges(cfg: Settings, s: State, email: string, password: string, m: Mint)
    requires RowsAreSigned(s) && FreshMint(s.signed, m)
    ensures RowsAge(s, SignIn(cfg, s, email, password, m).0)
  {
  }

  lemma RefreshAges(cfg: Settings, s: State, raw: string, access: Option<string>, m: Mint)
    requires RowsAreSigned(s) && FreshMint(s.signed, m)
    ensures RowsAge(s, RefreshSession(cfg, s, raw, access, m).0)
  {
  }

  /** A callback either leaves the refresh rows alone or adds one for the user it signs in. */
  lemma CallbackRows(cfg: Settings, s: State, state: string, answer: Option<GoogleInfo>, id: UserId, m: Mint)
    ensures var (t, r) := GoogleCallback(cfg, s, state, answer, id, m);
      && !r.SignedIn? && !r.LoggedOut? && !r.PasswordReset?
      && t.db.refresh == if r.GoogleSignedIn? then OpenSession(cfg, s, r.user, m).db.refresh else s.db.refresh
  {
  }

  lemma CallbackAges(cfg: Settings, s: State, state: string, answer: Option<GoogleInfo>, id: UserId, m: Mint)
    requires RowsAreSigned(s) && FreshMint(s.signed, m)
    ensures RowsAge(s, GoogleCallback(cfg, s, state, answer, id, m).0)
  {
    CallbackRows(cfg, s, state, answer, id, m);
  }

  lemma LogOutAges(s: State, raw: Option<string>, access: Option<string>)
    ensures RowsAge(s, LogOut(s, raw, access).0)
  {
  }

  lemma ResetAges(s: State, raw: string, hash: string)
    ensures RowsAge(s, ResetPassword(s, raw, hash).0)
  {
  }

  lemma StepAges(cfg: Settings, s: State, e: Event)
    requires Inv(s) && Fresh(s, e)
    ensures RowsAge(s, Step(cfg, s, e).0)
  {
    match e
    case LoginRequest(email, password, m) => SignInAges(cfg, s, email, password, m);
    case RefreshRequest(raw, access, m) => RefreshAges(cfg, s, raw, access, m);
    case CallbackRequest(state, answer, id, m) => CallbackAges(cfg, s, state, answer, id, m);
    case LogoutRequest(raw, access) => LogOutAges(s, raw, access);
    case ResetRequest(raw, hash) => ResetAges(s, raw, hash);
    case _ => QuietStep(cfg, s, e);
  }

  lemma StepKeepsDead(cfg: Settings, s: State, e: Event, raw: string)
    requires Inv(s) && Fresh(s, e) && Dead(s, raw)
    ensures Dead(Step(cfg, s, e).0, raw)
  {
    StepAges(cfg, s, e);
    StepGrows(cfg, s, e);
  }

  lemma {:induction false} DeadStaysDead(cfg: Settings, g: History, h: History, raw: string)
    requires Valid(cfg, h) && Extends(h, g) && Dead(After(cfg, g), raw)
    ensures Dead(After(cfg, h), raw)
    ensures forall access, m :: RefreshSession(cfg, After(cfg, h), raw, access, m) == (After(cfg, h), RefreshRejected)
  {
    if h != g {
      DeadStaysDead(cfg, g, h.before, raw);
      Reachable(cfg, h.before);
      StepKeepsDead(cfg, After(cfg, h.before), h.event, raw);
    }
  }

  lemma {:induction false} SpentAreDead(cfg: Settings, h: History)
    requires Valid(cfg, h)
    ensures forall i :: 0 <= i < |Log(cfg, h)| && Log(cfg, h)[i].reply.Refreshed? ==>
      Dead(After(cfg, h), Log(cfg, h)[i].reply.spent)
  {
    if h.Then? {
      var s := After(cfg, h.before);
      SpentAreDead(cfg, h.before);
      Reachable(cfg, h.before);
      forall i | 0 <= i < |Log(cfg, h)| && Log(cfg, h)[i].reply.Refreshed?
        ensures Dead(After(cfg, h), Log(cfg, h)[i].reply.spent)
      {
        if i < |Log(cfg, h.before)| {
          assert Log(cfg, h)[i] == Log(cfg, h.before)[i];
          StepKeepsDead(cfg, s, h.event, Log(cfg, h)[i].reply.spent);
        } else {
          RefreshSpends(cfg, s, h.event);
        }
      }
    }
  }

  /** In any state, a refresh succeeds exactly for the owner of an unrevoked,
      unexpired row of the token, if that user exists; otherwise nothing changes. */
  lemma RefreshNeedsRow(cfg: Settings, s: State, raw: string, access: Option<string>, m: Mint)
    ensures var d, (t, r) := Sha256(raw), RefreshSession(cfg, s, raw, access, m);
      if d in s.db.refresh && !s.db.refresh[d].revoked && s.now <= s.db.refresh[d].expiresAt && s.db.refresh[d].user in s.db.users
      then r == Refreshed(s.db.refresh[d].user, raw, m.refresh)
      else t == s && r == RefreshRejected
  {
  }

  lemma OnlyRefreshes(cfg: Settings, s: State, e: Event)
    requires Step(cfg, s, e).1.Refreshed?
    ensures e.RefreshRequest?
  {
  }

  lemma RefreshSpends(cfg: Settings, s: State, e: Event)
    requires RowsAreSigned(s) && Fresh(s, e) && Step(cfg, s, e).1.Refreshed?
    ensures Dead(Step(cfg, s, e).0, Step(cfg, s, e).1.spent)
    ensures Usable(s, Step(cfg, s, e).1.spent)
  {
    OnlyRefreshes(cfg, s, e);
    ExchangeSpends(cfg, s, e.raw, e.access, e.mint);
  }

  lemma ExchangeSpends(cfg: Settings, s: State, raw: string, access: Option<string>, m: Mint)
    requires RowsAreSigned(s) && FreshMint(s.signed, m) && Usable(s, raw)
    ensures Dead(RefreshSession(cfg, s, raw, access, m).0, raw)
  {
  }

  /** A raw refresh token is exchanged at most once in any run. */
  lemma {:induction false} RefreshedAtMostOnce(cfg: Settings, h: History)
    requires Valid(cfg, h)
    ensures forall i, j :: 0 <= i < j < |Log(cfg, h)| && Log(cfg, h)[i].reply.Refreshed? && Log(cfg, h)[j].reply.Refreshed? ==>
      Log(cfg, h)[i].reply.spent != Log(cfg, h)[j].reply.spent
  {
    if h.Then? {
      RefreshedAtMostOnce(cfg, h.before);
      SpentAreDead(cfg, h.before);
      Reachable(cfg, h.before);
      if Step(cfg, After(cfg, h.before), h.event).1.Refreshed? {
        RefreshSpends(cfg, After(cfg, h.before), h.event);
      }
    }
  }

  /** After a logout with a signed refresh token, no refresh ever exchanges it. */
  lemma LogOutIsFinal(cfg: Settings, g: History, h: History, raw: string, access: Option<string>)
    requires Valid(cfg, h) && Extends(h, Then(g, LogoutRequest(Some(raw), access)))
    requires raw != "" && raw in After(cfg, g).signed
    ensures Dead(After(cfg, h), raw)
  {
    RunsGrow(cfg, Then(g, LogoutRequest(Some(raw), access)), h);
    DeadStaysDead(cfg, Then(g, LogoutRequest(Some(raw), access)), h, raw);
  }

  lemma ResetKills(cfg: Settings, g: History, raw: string, hash: string, u: UserId, token: string)
    requires Valid(cfg, g) && ResetPassword(After(cfg, g), raw, hash).1 == PasswordReset(u)
    requires token in After(cfg, g).signed && After(cfg, g).signed[token].sub == Some(u)
    ensures Dead(ResetPassword(After(cfg, g), raw, hash).0, token)
  {
    Reachable(cfg, g);
  }

  /** After a successful password reset no refresh token minted for that user
      before the reset is ever exchanged again. */
  lemma ResetIsFinal(cfg: Settings, g: History, h: History, raw: string, hash: string, u: UserId, token: string)
    requires Valid(cfg, h) && Extends(h, Then(g, ResetRequest(raw, hash)))
    requires ResetPassword(After(cfg, g), raw, hash).1 == PasswordReset(u)
    requires token in After(cfg, g).signed && After(cfg, g).signed[token].sub == Some(u)
    ensures Dead(After(cfg, h), token)
  {
    var g' := Then(g, ResetRequest(raw, hash));
    RunsGrow(cfg, g', h);
    ResetKills(cfg, g, raw, hash, u, token);
    DeadStaysDead(cfg, g', h, token);
  }

  /** The reset revokes no signed token, access or refresh: whom `get_current_user` takes it for does not change. */
  lemma ResetRevokesNothing(cfg: Settings, h: History, raw: string, hash: string, token: string)
    requires Valid(cfg, h)
    ensures CurrentUser(ResetPassword(After(cfg, h), raw, hash).0, token) == CurrentUser(After(cfg, h), token)
  {
  }

  // ----- Conservation of sessions -----

  /** The unrevoked refresh rows of a user, expired or not. */
  ghost function Active(refresh: map<Digest, RefreshRow>, u: UserId): set<Digest> {
    set d | d in refresh && refresh[d].user == u && !refresh[d].revoked
  }

  predicate Opens(r: Reply, u: UserId) {
    (r.SignedIn? && r.user == u) || (r.GoogleSignedIn? && r.user == u)
  }

  /** Sign-ins and Google callbacks of `u` since the last password reset of `u`. */
  function Opened(log: seq<Record>, u: UserId): nat {
    if log == [] then 0
    else
      var r := log[|log| - 1].reply;
      if r == PasswordReset(u) then 0
      else Opened(log[..|log| - 1], u) + if Opens(r, u) then 1 else 0
  }

  /** Logouts that hit an unrevoked row of `u` since the last password reset of `u`. */
  function Closed(log: seq<Record>, u: UserId): nat {
    if log == [] then 0
    else
      var r := log[|log| - 1].reply;
      if r == PasswordReset(u) then 0
      else Closed(log[..|log| - 1], u) + if r == LoggedOut(Some(u)) then 1 else 0
  }

  lemma OpenSessionAdds(cfg: Settings, s: State, u: UserId, m: Mint, v: UserId)
    requires Sha256(m.refresh) !in s.db.refresh
    ensures Active(OpenSession(cfg, s, u, m).db.refresh, v) ==
      Active(s.db.refresh, v) + if u == v then {Sha256(m.refresh)} else {}
  {
  }

  lemma RevokeRemoves(refresh: map<Digest, RefreshRow>, d: Digest, v: UserId)
    requires d in refresh
    ensures Active(refresh[d := refresh[d].(revoked := true)], v) == Active(refresh, v) - {d}
  {
  }

  lemma RotationKeepsCount(cfg: Settings, s: State, raw: string, access: Option<string>, m: Mint, u: UserId)
    requires RowsAreSigned(s) && FreshMint(s.signed, m)
    ensures var (t, r) := RefreshSession(cfg, s, raw, access, m);
      (r.Refreshed? || r == RefreshRejected) && |Active(t.db.refresh, u)| == |Active(s.db.refresh, u)|
  {
    if Usable(s, raw) {
      var row := s.db.refresh[Sha256(raw)];
      var s1 := s.(redis := s.redis.(blacklist := BlacklistIfValid(s, access)));
      OpenSessionAdds(cfg, s1, row.user, m, u);
      RevokeRemoves(OpenSession(cfg, s1, row.user, m).db.refresh, Sha256(raw), u);
    }
  }

  /** How a reply tells the change in the number of unrevoked rows of `u`. */
  ghost predicate Counted(before: map<Digest, RefreshRow>, after: map<Digest, RefreshRow>, r: Reply, u: UserId) {
    |Active(after, u)| + (if r == LoggedOut(Some(u)) then 1 else 0)
      == if r == PasswordReset(u) then 0 else |Active(before, u)| + if Opens(r, u) then 1 else 0
  }

  lemma SignInActive(cfg: Settings, s: State, email: string, password: string, m: Mint, u: UserId)
    requires RowsAreSigned(s) && FreshMint(s.signed, m)
    ensures var (t, r) := SignIn(cfg, s, email, password, m); Counted(s.db.refresh, t.db.refresh, r, u)
  {
    var (t, r) := SignIn(cfg, s, email, password, m);
    if r.SignedIn? {
      OpenSessionAdds(cfg, s.(redis := s.redis.(failed := Delete(s.redis.failed, email))), r.user, m, u);
    }
  }

  lemma CallbackActive(cfg: Settings, s: State, state: string, answer: Option<GoogleInfo>, id: UserId, m: Mint, u: UserId)
    requires RowsAreSigned(s) && FreshMint(s.signed, m)
    ensures var (t, r) := GoogleCallback(cfg, s, state, answer, id, m); Counted(s.db.refresh, t.db.refresh, r, u)
  {
    var (_, r) := GoogleCallback(cfg, s, state, answer, id, m);
    CallbackRows(cfg, s, state, answer, id, m);
    if r.GoogleSignedIn? {
      OpenSessionAdds(cfg, s, r.user, m, u);
    }
  }

  lemma LogOutActive(s: State, raw: Option<string>, access: Option<string>, u: UserId)
    ensures var (t, r) := LogOut(s, raw, access); Counted(s.db.refresh, t.db.refresh, r, u)
  {
    if LogOut(s, raw, access).1.closed.Some? {
      RevokeRemoves(s.db.refresh, Sha256(raw.value), u);
    }
  }

  lemma ResetActive(s: State, raw: string, hash: string, u: UserId)
    ensures var (t, r) := ResetPassword(s, raw, hash); Counted(s.db.refresh, t.db.refresh, r, u)
  {
    var (t, r) := ResetPassword(s, raw, hash);
    assert Active(t.db.refresh, u) == if r == PasswordReset(u) then {} else Active(s.db.refresh, u);
  }

  /** What one step does to the number of unrevoked rows, told by its reply. */
  lemma ActiveStep(cfg: Settings, s: State, e: Event, u: UserId)
    requires RowsAreSigned(s) && Fresh(s, e)
    ensures var (t, r) := Step(cfg, s, e); Counted(s.db.refresh, t.db.refresh, r, u)
  {
    match e
    case LoginRequest(email, password, m) => SignInActive(cfg, s, email, password, m, u);
    case CallbackRequest(state, answer, id, m) => CallbackActive(cfg, s, state, answer, id, m, u);
    case RefreshRequest(raw, access, m) => RotationKeepsCount(cfg, s, raw, access, m, u);
    case LogoutRequest(raw, access) => LogOutActive(s, raw, access, u);
    case ResetRequest(raw, hash) => ResetActive(s, raw, hash, u);
    case _ => QuietStep(cfg, s, e);
  }

  /** Conservation: the unrevoked rows of a user are the sessions opened since
      the user's last password reset minus the ones closed by a logout since.
      Rotation, expiry and everything else contribute nothing. */
  lemma {:induction false} SessionsConserved(cfg: Settings, h: History, u: UserId)
    requires Valid(cfg, h)
    ensures |Active(After(cfg, h).db.refresh, u)| + Closed(Log(cfg, h), u) == Opened(Log(cfg, h), u)
  {
    if h.Then? {
      SessionsConserved(cfg, h.before, u);
      Reachable(cfg, h.before);
      ActiveStep(cfg, After(cfg, h.before), h.event, u);
      assert Log(cfg, h)[..|Log(cfg, h)| - 1] == Log(cfg, h.before);
    } else {
      assert Active(After(cfg, h).db.refresh, u) == {};
    }
  }
}
