/** Where a redeemed verification token, password reset token or OAuth state comes from. */
module SecretLaws {
  import opened Wrappers
  import opened Redis
  import opened Auth
  import opened Runs
  import opened Invariants

  datatype Kind = VerifyToken | ResetToken | OauthState

  /** Tokens belong to a user, states to nobody. */
  datatype Owner = Of(user: UserId) | Nobody

  function Lifetime(cfg: Settings, kind: Kind): nat {
    var minutes := match kind
                   case VerifyToken => cfg.verifyMinutes
                   case ResetToken => cfg.resetMinutes
                   case OauthState => cfg.oauthMinutes;
    minutes * 60 * TICKS_PER_SECOND
  }

  /** The owner to whom a record issues the raw secret. */
  function IssuedTo(kind: Kind, r: Record, raw: string): Option<Owner> {
    match kind
    case VerifyToken =>
      if r.reply.SignedUp? && r.event.SignupRequest? && r.event.raw == raw then Some(Of(r.reply.user))
      else if r.reply.VerificationIssued? && r.reply.raw == raw then Some(Of(r.reply.user))
      else None
    case ResetToken =>
      if r.reply.ResetIssued? && r.reply.raw == raw then Some(Of(r.reply.user)) else None
    case OauthState =>
      if r.event.GoogleRequest? && r.event.state == raw then Some(Nobody) else None
  }

  /** A request presents the raw secret, whatever comes of it. */
  predicate Presents(kind: Kind, e: Event, raw: string) {
    match kind
    case VerifyToken => e.VerifyRequest? && e.raw == raw
    case ResetToken => e.ResetRequest? && e.raw == raw
    case OauthState => e.CallbackRequest? && e.state == raw
  }

  datatype Issue = Issue(owner: Owner, at: Time)

  /** The latest issue of `raw` that no later request has presented. */
  function Pending(kind: Kind, log: seq<Record>, raw: string): Option<Issue> {
    if log == [] then None
    else PendingAfter(kind, Pending(kind, log[..|log| - 1], raw), log[|log| - 1], raw)
  }

  function PendingAfter(kind: Kind, p: Option<Issue>, r: Record, raw: string): Option<Issue> {
    var u := IssuedTo(kind, r, raw);
    if u.Some? then Some(Issue(u.value, r.at)) else if Presents(kind, r.event, raw) then None else p
  }

  // ----- The keys are the pending issues -----

  function Stored(s: State, kind: Kind, raw: string): Option<Entry<Owner>> {
    var d := Sha256(raw);
    match kind
    case VerifyToken =>
      if d in s.redis.verify then Some(Entry(Of(s.redis.verify[d].value), s.redis.verify[d].expiry)) else None
    case ResetToken =>
      if d !in s.redis.reset then None
      else
        var ref := s.redis.reset[d].value;
        Some(Entry(if ref.Uuid? then Of(ref.id) else Nobody, s.redis.reset[d].expiry))
    case OauthState =>
      if raw in s.redis.oauth then Some(Entry(Nobody, s.redis.oauth[raw].expiry)) else None
  }

  function KeyOf(cfg: Settings, kind: Kind, p: Option<Issue>): Option<Entry<Owner>> {
    if p.None? then None else Some(Entry(p.value.owner, Some(p.value.at + Lifetime(cfg, kind))))
  }

  lemma CallbackKeys(cfg: Settings, s: State, state: string, answer: Option<GoogleInfo>, id: UserId, m: Mint)
    ensures var (t, r) := GoogleCallback(cfg, s, state, answer, id, m);
      && t.redis.reset == s.redis.reset && t.redis.verify == s.redis.verify
      && t.redis.oauth == Delete(s.redis.oauth, state) && t.generated == s.generated
      && !r.ResetIssued? && !r.VerificationIssued? && !r.SignedUp?
  {
  }

  /** What a handler that neither issues nor redeems keeps. */
  predicate KeepsKeys(s: State, t: State, r: Reply) {
    && t.redis.reset == s.redis.reset && t.redis.verify == s.redis.verify && t.redis.oauth == s.redis.oauth
    && t.generated == s.generated && !r.ResetIssued? && !r.VerificationIssued? && !r.SignedUp?
  }

  lemma SignInKeepsKeys(cfg: Settings, s: State, email: string, password: string, m: Mint)
    ensures var (t, r) := SignIn(cfg, s, email, password, m); KeepsKeys(s, t, r)
  {
  }

  lemma RefreshKeepsKeys(cfg: Settings, s: State, raw: string, access: Option<string>, m: Mint)
    ensures var (t, r) := RefreshSession(cfg, s, raw, access, m); KeepsKeys(s, t, r)
  {
  }

  lemma LogOutKeepsKeys(s: State, raw: Option<string>, access: Option<string>)
    ensures var (t, r) := LogOut(s, raw, access); KeepsKeys(s, t, r)
  {
  }

  lemma OthersKeepKeys(cfg: Settings, s: State, e: Event)
    requires e.Tick? || e.LoginRequest? || e.RefreshRequest? || e.LogoutRequest?
    ensures var (t, r) := Step(cfg, s, e); KeepsKeys(s, t, r)
  {
    match e
    case Tick(_) =>
    case LoginRequest(email, password, m) => SignInKeepsKeys(cfg, s, email, password, m);
    case RefreshRequest(raw, access, m) => RefreshKeepsKeys(cfg, s, raw, access, m);
    case LogoutRequest(raw, access) => LogOutKeepsKeys(s, raw, access);
  }

  /** What each handler keeps between a key and the pending issue. */
  ghost predicate Follows(cfg: Settings, s: State, e: Event, kind: Kind, raw: string, p: Option<Issue>) {
    var (t, r) := Step(cfg, s, e);
    Stored(t, kind, raw) == KeyOf(cfg, kind, PendingAfter(kind, p, Record(s.now, e, r), raw))
  }

  lemma IssueKey(cfg: Settings, s: State, e: Event, kind: Kind, raw: string, p: Option<Issue>)
    requires e.SignupRequest? || e.ResendRequest? || e.ForgotRequest? || e.GoogleRequest?
    requires Stored(s, kind, raw) == KeyOf(cfg, kind, p)
    ensures Follows(cfg, s, e, kind, raw, p)
  {
  }

  lemma RedeemKey(cfg: Settings, s: State, e: Event, kind: Kind, raw: string, p: Option<Issue>)
    requires e.VerifyRequest? || e.ResetRequest? || e.CallbackRequest?
    requires Stored(s, kind, raw) == KeyOf(cfg, kind, p)
    ensures Follows(cfg, s, e, kind, raw, p)
  {
    match e
    case VerifyRequest(_) =>
    case ResetRequest(_, _) =>
    case CallbackRequest(state, answer, id, m) => CallbackKeys(cfg, s, state, answer, id, m);
  }

  lemma StepKey(cfg: Settings, s: State, e: Event, kind: Kind, raw: string, p: Option<Issue>)
    requires Stored(s, kind, raw) == KeyOf(cfg, kind, p)
    ensures Follows(cfg, s, e, kind, raw, p)
  {
    if e.SignupRequest? || e.ResendRequest? || e.ForgotRequest? || e.GoogleRequest? {
      IssueKey(cfg, s, e, kind, raw, p);
    } else if e.VerifyRequest? || e.ResetRequest? || e.CallbackRequest? {
      RedeemKey(cfg, s, e, kind, raw, p);
    } else {
      OthersKeepKeys(cfg, s, e);
    }
  }

  lemma {:induction false} KeysMatchLog(cfg: Settings, h: History, kind: Kind, raw: string)
    ensures Stored(After(cfg, h), kind, raw) == KeyOf(cfg, kind, Pending(kind, Log(cfg, h), raw))
  {
    match h
    case Start =>
    case Then(g, e) =>
      KeysMatchLog(cfg, g, kind, raw);
      StepKey(cfg, After(cfg, g), e, kind, raw, Pending(kind, Log(cfg, g), raw));
      assert Log(cfg, h)[..|Log(cfg, h)| - 1] == Log(cfg, g);
  }

  // ----- Pending issues as positions in the log -----

  /** Record `i` issued `raw` to `o` less than a lifetime ago, and no later request presented it. */
  predicate Grants(cfg: Settings, kind: Kind, log: seq<Record>, now: Time, i: nat, o: Owner, raw: string) {
    && i < |log| && IssuedTo(kind, log[i], raw) == Some(o)
    && (forall j :: i < j < |log| ==> !Presents(kind, log[j].event, raw))
    && now < log[i].at + Lifetime(cfg, kind)
  }

  ghost predicate HasGrant(cfg: Settings, kind: Kind, log: seq<Record>, now: Time, o: Owner, raw: string) {
    exists i: nat :: Grants(cfg, kind, log, now, i, o, raw)
  }

  /** No raw token is issued twice. */
  ghost predicate IssuedOnce(kind: Kind, log: seq<Record>, raw: string) {
    forall i, j :: 0 <= i < j < |log| && IssuedTo(kind, log[i], raw).Some? ==> IssuedTo(kind, log[j], raw).None?
  }

  lemma {:induction false} PendingHasPosition(kind: Kind, log: seq<Record>, raw: string) returns (i: nat)
    requires Pending(kind, log, raw).Some?
    ensures i < |log| && IssuedTo(kind, log[i], raw) == Some(Pending(kind, log, raw).value.owner)
    ensures log[i].at == Pending(kind, log, raw).value.at
    ensures forall j :: i < j < |log| ==> !Presents(kind, log[j].event, raw)
  {
    i := |log| - 1;
    if IssuedTo(kind, log[i], raw).None? {
      i := PendingHasPosition(kind, log[..|log| - 1], raw);
    }
  }

  lemma {:induction false} PositionIsPending(kind: Kind, log: seq<Record>, raw: string, i: nat)
    requires i < |log| && IssuedTo(kind, log[i], raw).Some? && IssuedOnce(kind, log, raw)
    requires forall j :: i < j < |log| ==> !Presents(kind, log[j].event, raw)
    ensures Pending(kind, log, raw) == Some(Issue(IssuedTo(kind, log[i], raw).value, log[i].at))
  {
    if i < |log| - 1 {
      PositionIsPending(kind, log[..|log| - 1], raw, i);
    }
  }

  lemma StepDraws(cfg: Settings, s: State, e: Event, kind: Kind, raw: string)
    requires Fresh(s, e)
    ensures var (t, r) := Step(cfg, s, e);
      && s.generated <= t.generated
      && (IssuedTo(kind, Record(s.now, e, r), raw).Some? ==> raw !in s.generated && raw in t.generated)
  {
    match e
    case SignupRequest(_, _, _, _, _, _) =>
    case ResendRequest(_, _) =>
    case VerifyRequest(_) =>
    case ForgotRequest(_, _) =>
    case ResetRequest(_, _) =>
    case GoogleRequest(_) =>
    case CallbackRequest(state, answer, id, m) => CallbackKeys(cfg, s, state, answer, id, m);
    case _ => OthersKeepKeys(cfg, s, e);
  }

  lemma {:induction false} IssuesAreDrawn(cfg: Settings, h: History, kind: Kind, raw: string)
    requires Valid(cfg, h)
    ensures forall i :: 0 <= i < |Log(cfg, h)| && IssuedTo(kind, Log(cfg, h)[i], raw).Some? ==> raw in After(cfg, h).generated
    ensures IssuedOnce(kind, Log(cfg, h), raw)
  {
    if h.Then? {
      IssuesAreDrawn(cfg, h.before, kind, raw);
      StepDraws(cfg, After(cfg, h.before), h.event, kind, raw);
    }
  }

  ghost predicate LiveFor(s: State, kind: Kind, raw: string, o: Owner) {
    var e := Stored(s, kind, raw);
    e.Some? && Live(e.value, s.now) && e.value.value == o
  }

  /** A key is live for an owner exactly when the log grants it. */
  lemma LiveExactly(cfg: Settings, h: History, kind: Kind, o: Owner, raw: string)
    requires Valid(cfg, h)
    ensures LiveFor(After(cfg, h), kind, raw, o) <==> HasGrant(cfg, kind, Log(cfg, h), After(cfg, h).now, o, raw)
  {
    var log, now := Log(cfg, h), After(cfg, h).now;
    KeysMatchLog(cfg, h, kind, raw);
    IssuesAreDrawn(cfg, h, kind, raw);
    var p := Pending(kind, log, raw);
    if p.Some? && p.value.owner == o && now < p.value.at + Lifetime(cfg, kind) {
      var i := PendingHasPosition(kind, log, raw);
      assert Grants(cfg, kind, log, now, i, o, raw);
    }
    if HasGrant(cfg, kind, log, now, o, raw) {
      var i: nat :| Grants(cfg, kind, log, now, i, o, raw);
      PositionIsPending(kind, log, raw, i);
    }
  }

  // ----- The three handlers -----

  /** In any state, also with a stored id that is malformed or names nobody. */
  lemma ResetNeedsKey(s: State, raw: string, hash: string, u: UserId)
    ensures ResetPassword(s, raw, hash).1 == PasswordReset(u) <==> LiveFor(s, ResetToken, raw, Of(u)) && u in s.db.users
    ensures ResetPassword(s, raw, hash).1.PasswordReset? || ResetPassword(s, raw, hash).1 == ResetRejected
  {
  }

  /** A password reset succeeds for `u` exactly when the log grants it: the
      token was issued to `u`, its lifetime has not run out, and nobody
      presented it since. */
  lemma ResetExactly(cfg: Settings, h: History, raw: string, hash: string, u: UserId)
    requires Valid(cfg, h)
    ensures ResetPassword(After(cfg, h), raw, hash).1 == PasswordReset(u)
      <==> HasGrant(cfg, ResetToken, Log(cfg, h), After(cfg, h).now, Of(u), raw)
  {
    Reachable(cfg, h);
    LiveExactly(cfg, h, ResetToken, Of(u), raw);
    ResetNeedsKey(After(cfg, h), raw, hash, u);
  }

  predicate Unverified(db: Db, u: UserId) { u in db.users && !db.users[u].verified }

  /** In any state, also with a stored id that names nobody. */
  lemma VerifyNeedsKey(s: State, raw: string, u: UserId)
    ensures VerifyEmail(s, raw).1 == EmailVerified(u) <==> LiveFor(s, VerifyToken, raw, Of(u)) && Unverified(s.db, u)
    ensures LiveFor(s, VerifyToken, raw, Of(u)) ==> (VerifyEmail(s, raw).1 == VerifyRejected <==> u !in s.db.users)
  {
  }

  /** A verification succeeds for `u` exactly when the log grants it and `u` is
      not verified yet, and a granted token is never rejected as expired. */
  lemma VerificationExactly(cfg: Settings, h: History, raw: string, u: UserId)
    requires Valid(cfg, h)
    ensures VerifyEmail(After(cfg, h), raw).1 == EmailVerified(u) <==>
      HasGrant(cfg, VerifyToken, Log(cfg, h), After(cfg, h).now, Of(u), raw) && Unverified(After(cfg, h).db, u)
    ensures HasGrant(cfg, VerifyToken, Log(cfg, h), After(cfg, h).now, Of(u), raw) ==>
      VerifyEmail(After(cfg, h), raw).1 != VerifyRejected
  {
    Reachable(cfg, h);
    LiveExactly(cfg, h, VerifyToken, Of(u), raw);
    VerifyNeedsKey(After(cfg, h), raw, u);
  }

  /** Google answered, and the ID token, if any, names the same account. */
  predicate Coherent(answer: Option<GoogleInfo>) {
    answer.Some? && (answer.value.idTokenSubject.Some? ==> answer.value.idTokenSubject == Some(answer.value.subject))
  }

  lemma CallbackNeedsState(cfg: Settings, s: State, state: string, answer: Option<GoogleInfo>, id: UserId, m: Mint)
    ensures GoogleCallback(cfg, s, state, answer, id, m).1 != GoogleRejected
      <==> LiveFor(s, OauthState, state, Nobody) && Coherent(answer)
  {
  }

  /** A callback reaches the account tables exactly when the log grants its
      state and Google's answer is coherent. */
  lemma CallbackExactly(cfg: Settings, h: History, state: string, answer: Option<GoogleInfo>, id: UserId, m: Mint)
    requires Valid(cfg, h)
    ensures GoogleCallback(cfg, After(cfg, h), state, answer, id, m).1 != GoogleRejected
      <==> HasGrant(cfg, OauthState, Log(cfg, h), After(cfg, h).now, Nobody, state) && Coherent(answer)
  {
    LiveExactly(cfg, h, OauthState, Nobody, state);
    CallbackNeedsState(cfg, After(cfg, h), state, answer, id, m);
  }

  /** No second record ever issued the same raw token. */
  lemma IssueIsUnique(cfg: Settings, h: History, kind: Kind, raw: string, i: nat, j: nat)
    requires Valid(cfg, h) && i < |Log(cfg, h)| && j < |Log(cfg, h)|
    requires IssuedTo(kind, Log(cfg, h)[i], raw).Some? && IssuedTo(kind, Log(cfg, h)[j], raw).Some?
    ensures i == j
  {
    IssuesAreDrawn(cfg, h, kind, raw);
  }
}
