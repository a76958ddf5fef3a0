/** Serial runs: every handler of the core runs to completion before the next
    one starts, and the clock only moves forward between them. */
module Runs {
  import opened Wrappers
  import opened Redis
  import opened Auth

  datatype Event =
    | Tick(elapsed: nat)
    | SignupRequest(email: string, firstName: string, lastName: Option<string>,
                    passwordHash: string, id: UserId, raw: string)
    | ResendRequest(email: string, raw: string)
    | VerifyRequest(raw: string)
    | LoginRequest(email: string, password: string, mint: Mint)
    | RefreshRequest(raw: string, access: Option<string>, mint: Mint)
    | LogoutRequest(refresh: Option<string>, access: Option<string>)
    | ForgotRequest(email: string, raw: string)
    | ResetRequest(raw: string, newHash: string)
    | GoogleRequest(state: string)
    | CallbackRequest(state: string, answer: Option<GoogleInfo>, id: UserId, mint: Mint)

  ghost function Step(cfg: Settings, s: State, e: Event): (State, Reply) {
    match e
    case Tick(d) => (s.(now := s.now + d), Ticked)
    case SignupRequest(email, first, last, hash, id, raw) => SignUp(cfg, s, email, first, last, hash, id, raw)
    case ResendRequest(email, raw) => ResendVerification(cfg, s, email, raw)
    case VerifyRequest(raw) => VerifyEmail(s, raw)
    case LoginRequest(email, password, m) => SignIn(cfg, s, email, password, m)
    case RefreshRequest(raw, access, m) => RefreshSession(cfg, s, raw, access, m)
    case LogoutRequest(raw, access) => LogOut(s, raw, access)
    case ForgotRequest(email, raw) => RequestReset(cfg, s, email, raw)
    case ResetRequest(raw, hash) => ResetPassword(s, raw, hash)
    case GoogleRequest(state) => StartGoogle(cfg, s, state)
    case CallbackRequest(state, answer, id, m) => GoogleCallback(cfg, s, state, answer, id, m)
  }

  /** Both tokens and both jtis of a mint have never been signed before. */
  predicate FreshMint(signed: map<string, Claims>, m: Mint) {
    && m.access !in signed && m.refresh !in signed && m.access != m.refresh
    && m.accessJti != "" && m.refreshJti != "" && m.accessJti != m.refreshJti
    && (forall t :: t in signed ==> signed[t].jti != Some(m.accessJti) && signed[t].jti != Some(m.refreshJti))
  }

  /** What is drawn at random is new. */
  predicate Fresh(s: State, e: Event) {
    match e
    case SignupRequest(_, _, _, _, id, raw) => id !in s.db.users && raw !in s.generated
    case ResendRequest(_, raw) => raw !in s.generated
    case LoginRequest(_, _, m) => FreshMint(s.signed, m)
    case RefreshRequest(_, _, m) => FreshMint(s.signed, m)
    case ForgotRequest(_, raw) => raw !in s.generated
    case GoogleRequest(state) => state !in s.generated
    case CallbackRequest(_, _, id, m) => id !in s.db.users && FreshMint(s.signed, m)
    case _ => true
  }

  datatype History = Start | Then(before: History, event: Event)

  function Empty(): State {
    State(0, Db(map[], [], map[]), RedisKeys(map[], map[], map[], map[], map[]), map[], {})
  }

  ghost function After(cfg: Settings, h: History): State {
    match h
    case Start => Empty()
    case Then(g, e) => Step(cfg, After(cfg, g), e).0
  }

  ghost predicate Valid(cfg: Settings, h: History) {
    h.Then? ==> Valid(cfg, h.before) && Fresh(After(cfg, h.before), h.event)
  }

  /** `h` is `g` with further steps. */
  ghost predicate Extends(h: History, g: History) {
    h == g || (h.Then? && Extends(h.before, g))
  }

  /** What an observer of the handlers would write down. */
  datatype Record = Record(at: Time, event: Event, reply: Reply)

  ghost function Log(cfg: Settings, h: History): seq<Record> {
    match h
    case Start => []
    case Then(g, e) => Log(cfg, g) + [Record(After(cfg, g).now, e, Step(cfg, After(cfg, g), e).1)]
  }
}
