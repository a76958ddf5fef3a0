/** The tables hold exactly what the answers announced: replaying the log of a
    run gives every row of the three tables. */
module Replay {
  import opened Wrappers
  import opened Redis
  import opened Auth
  import opened Runs
  import opened Invariants

  /** The row of a refresh token handed out at `at`. */
  function Handed(cfg: Settings, refresh: map<Digest, RefreshRow>, raw: string, u: UserId, at: Time): map<Digest, RefreshRow> {
    refresh[Sha256(raw) := RefreshRow(u, at + cfg.refreshDays * 24 * 3600 * TICKS_PER_SECOND, false)]
  }

  function Closed(refresh: map<Digest, RefreshRow>, raw: string): map<Digest, RefreshRow> {
    if Sha256(raw) in refresh then refresh[Sha256(raw) := refresh[Sha256(raw)].(revoked := true)] else refresh
  }

  /** A Google sign-in of `u`: a new row, or the adoption of an account by its
      first link; a subject already linked changes nothing. */
  function Linked(db: Db, u: UserId, isNew: bool, info: GoogleInfo): Db {
    if LinkedUser(db.providers, info.subject).Some? then db
    else
      var db1 := db.(providers := db.providers + [Provider("google", Some(info.subject), u)]);
      if isNew then
        var named := GoogleUser(info);
        db1.(users := db.users[u := User(info.email, named.firstName, named.lastName, None, true, info.picture)])
      else if u in db.users then
        var was := db.users[u];
        db1.(users := db.users[u := User(was.email, was.firstName, was.lastName, was.passwordHash, true,
                                         if info.picture.Some? then info.picture else was.photo)])
      else db1
  }

  /** What one answered request did to the tables. */
  function Redo(cfg: Settings, db: Db, r: Record): Db {
    match r.reply
    case SignedUp(u) =>
      if !r.event.SignupRequest? then db
      else
        db.(users := db.users[u := User(r.event.email, r.event.firstName, r.event.lastName,
                                        Some(r.event.passwordHash), false, None)],
            providers := db.providers + [Provider("email", None, u)])
    case EmailVerified(u) =>
      if u in db.users then db.(users := db.users[u := db.users[u].(verified := true)]) else db
    case SignedIn(u, raw) => db.(refresh := Handed(cfg, db.refresh, raw, u, r.at))
    case Refreshed(u, spent, minted) => db.(refresh := Closed(Handed(cfg, db.refresh, minted, u, r.at), spent))
    case LoggedOut(Some(_)) =>
      if r.event.LogoutRequest? && r.event.refresh.Some? then db.(refresh := Closed(db.refresh, r.event.refresh.value)) else db
    case PasswordReset(u) =>
      if u in db.users && r.event.ResetRequest? then
        db.(users := db.users[u := db.users[u].(passwordHash := Some(r.event.newHash))],
            refresh := map d | d in db.refresh && db.refresh[d].user != u :: db.refresh[d])
      else db
    case GoogleSignedIn(u, isNew, raw) =>
      if r.event.CallbackRequest? && r.event.answer.Some? then
        var db1 := Linked(db, u, isNew, r.event.answer.value);
        db1.(refresh := Handed(cfg, db1.refresh, raw, u, r.at))
      else db
    case _ => db
  }

  function Tables(cfg: Settings, log: seq<Record>): Db {
    if log == [] then Db(map[], [], map[])
    else Redo(cfg, Tables(cfg, log[..|log| - 1]), log[|log| - 1])
  }

  // ----- Handler by handler -----

  lemma UpsertRedone(db: Db, info: GoogleInfo, id: UserId)
    requires UpsertGoogleUser(db, info, id).Ok?
    ensures var up := UpsertGoogleUser(db, info, id).value; up.db == Linked(db, up.user, up.isNew, info)
  {
  }

  lemma CallbackWrites(cfg: Settings, s: State, state: string, info: GoogleInfo, id: UserId, m: Mint)
    requires GoogleCallback(cfg, s, state, Some(info), id, m).1.GoogleSignedIn?
    ensures var (t, r) := GoogleCallback(cfg, s, state, Some(info), id, m);
      && UpsertGoogleUser(s.db, info, id).Ok?
      && var up := UpsertGoogleUser(s.db, info, id).value;
        r == GoogleSignedIn(up.user, up.isNew, m.refresh) && t.db == up.db.(refresh := Handed(cfg, up.db.refresh, m.refresh, up.user, s.now))
  {
  }

  lemma CallbackRefused(cfg: Settings, s: State, state: string, answer: Option<GoogleInfo>, id: UserId, m: Mint)
    ensures var (t, r) := GoogleCallback(cfg, s, state, answer, id, m);
      if r.GoogleSignedIn? then answer.Some? else t.db == s.db && r in {GoogleRejected, LinkRefused, IntegrityError}
  {
  }

  lemma CallbackRedone(cfg: Settings, s: State, state: string, answer: Option<GoogleInfo>, id: UserId, m: Mint)
    ensures var (t, r) := GoogleCallback(cfg, s, state, answer, id, m);
      t.db == Redo(cfg, s.db, Record(s.now, CallbackRequest(state, answer, id, m), r))
  {
    CallbackRefused(cfg, s, state, answer, id, m);
    if GoogleCallback(cfg, s, state, answer, id, m).1.GoogleSignedIn? {
      CallbackWrites(cfg, s, state, answer.value, id, m);
      UpsertRedone(s.db, answer.value, id);
    }
  }

  lemma SignInRedone(cfg: Settings, s: State, email: string, password: string, m: Mint)
    ensures var (t, r) := SignIn(cfg, s, email, password, m);
      t.db == Redo(cfg, s.db, Record(s.now, LoginRequest(email, password, m), r))
  {
  }

  lemma RefreshRedone(cfg: Settings, s: State, raw: string, access: Option<string>, m: Mint)
    requires RowsAreSigned(s) && FreshMint(s.signed, m)
    ensures var (t, r) := RefreshSession(cfg, s, raw, access, m);
      t.db == Redo(cfg, s.db, Record(s.now, RefreshRequest(raw, access, m), r))
  {
  }

  lemma LogOutRedone(cfg: Settings, s: State, raw: Option<string>, access: Option<string>)
    ensures var (t, r) := LogOut(s, raw, access); t.db == Redo(cfg, s.db, Record(s.now, LogoutRequest(raw, access), r))
  {
  }

  lemma ResetRedone(cfg: Settings, s: State, raw: string, hash: string)
    ensures var (t, r) := ResetPassword(s, raw, hash); t.db == Redo(cfg, s.db, Record(s.now, ResetRequest(raw, hash), r))
  {
  }

  lemma SignUpRedone(cfg: Settings, s: State, email: string, first: string, last: Option<string>,
                     hash: string, id: UserId, raw: string)
    ensures var (t, r) := SignUp(cfg, s, email, first, last, hash, id, raw);
      t.db == Redo(cfg, s.db, Record(s.now, SignupRequest(email, first, last, hash, id, raw), r))
  {
  }

  lemma OthersRedone(cfg: Settings, s: State, e: Event)
    requires e.Tick? || e.ResendRequest? || e.VerifyRequest? || e.ForgotRequest? || e.GoogleRequest?
    ensures var (t, r) := Step(cfg, s, e); t.db == Redo(cfg, s.db, Record(s.now, e, r))
  {
  }

  lemma StepRedone(cfg: Settings, s: State, e: Event)
    requires RowsAreSigned(s) && Fresh(s, e)
    ensures var (t, r) := Step(cfg, s, e); t.db == Redo(cfg, s.db, Record(s.now, e, r))
  {
    match e
    case SignupRequest(email, first, last, hash, id, raw) => SignUpRedone(cfg, s, email, first, last, hash, id, raw);
    case LoginRequest(email, password, m) => SignInRedone(cfg, s, email, password, m);
    case RefreshRequest(raw, access, m) => RefreshRedone(cfg, s, raw, access, m);
    case LogoutRequest(raw, access) => LogOutRedone(cfg, s, raw, access);
    case ResetRequest(raw, hash) => ResetRedone(cfg, s, raw, hash);
    case CallbackRequest(state, answer, id, m) => CallbackRedone(cfg, s, state, answer, id, m);
    case _ => OthersRedone(cfg, s, e);
  }

  /** In every run the three tables are the replay of the log: no handler
      writes a column or a row that its answer does not tell. */
  lemma {:induction false} TablesExactly(cfg: Settings, h: History)
    requires Valid(cfg, h)
    ensures After(cfg, h).db == Tables(cfg, Log(cfg, h))
  {
    if h.Then? {
      TablesExactly(cfg, h.before);
      Reachable(cfg, h.before);
      StepRedone(cfg, After(cfg, h.before), h.event);
      assert Log(cfg, h)[..|Log(cfg, h)| - 1] == Log(cfg, h.before);
    }
  }
}
