/** The account and session core as functions from state to state: the three
    tables, the Redis keys of each prefix, and what every handler does to them. */
module Auth {
  import opened Wrappers
  import opened Redis
  import PyStr

  // ----- Tables -----

  type UserId = nat

  /** SHA-256, taken to be injective: a digest is named by what it digests. */
  datatype Digest = Sha256(raw: string)

  datatype User = User(email: string, firstName: string, lastName: Option<string>,
                       passwordHash: Option<string>, verified: bool, photo: Option<string>)

  datatype Provider = Provider(provider: string, subject: Option<string>, user: UserId)

  datatype RefreshRow = RefreshRow(user: UserId, expiresAt: Time, revoked: bool)

  datatype Db = Db(users: map<UserId, User>, providers: seq<Provider>, refresh: map<Digest, RefreshRow>)

  predicate EmailsUnique(db: Db) {
    forall u, v :: u in db.users && v in db.users && db.users[u].email == db.users[v].email ==> u == v
  }

  predicate ProviderUserUnique(db: Db) {
    forall i, j :: 0 <= i < j < |db.providers| ==>
      !(db.providers[i].provider == db.providers[j].provider && db.providers[i].user == db.providers[j].user)
  }

  /** SQL uniqueness: rows whose subject is NULL never clash. */
  predicate ProviderSubjectUnique(db: Db) {
    forall i, j :: 0 <= i < j < |db.providers| ==>
      !(db.providers[i].provider == db.providers[j].provider
        && db.providers[i].subject.Some? && db.providers[i].subject == db.providers[j].subject)
  }

  predicate ForeignKeys(db: Db) {
    && (forall i :: 0 <= i < |db.providers| ==> db.providers[i].user in db.users)
    && (forall d :: d in db.refresh ==> db.refresh[d].user in db.users)
  }

  /** Everything Postgres checks at a flush or a commit. */
  predicate Consistent(db: Db) {
    EmailsUnique(db) && ProviderUserUnique(db) && ProviderSubjectUnique(db) && ForeignKeys(db)
  }

  // ----- Redis and tokens -----

  /** A stored user id: `str(user.id)`, or a text that is no UUID. */
  datatype UserRef = Uuid(id: UserId) | Malformed(text: string)

  /** The claims read by the application from a signed token. */
  datatype Claims = Claims(sub: Option<UserId>, jti: Option<string>, exp: Option<nat>)

  datatype RedisKeys = RedisKeys(
    verify: map<Digest, Entry<UserId>>,
    reset: map<Digest, Entry<UserRef>>,
    oauth: map<string, Entry<()>>,
    blacklist: map<string, Entry<()>>,
    failed: map<string, Entry<int>>)

  /** `signed` holds every token signed so far, so that decoding a token is a
      lookup; `generated` holds every single-use secret drawn so far. Neither
      is stored by the program. */
  datatype State = State(now: Time, db: Db, redis: RedisKeys,
                         signed: map<string, Claims>, generated: set<string>)

  datatype Settings = Settings(
    maxAttempts: nat, lockoutWindow: nat,
    verifyMinutes: nat, resetMinutes: nat, oauthMinutes: nat,
    accessMinutes: nat, refreshDays: nat,
    checkPassword: (string, string) -> bool)

  /** A window or lifetime of no length is rejected by Redis. */
  predicate Positive(cfg: Settings) {
    cfg.lockoutWindow > 0 && cfg.verifyMinutes > 0 && cfg.resetMinutes > 0 && cfg.oauthMinutes > 0
  }

  /** The random parts of one access token and one refresh token. */
  datatype Mint = Mint(access: string, accessJti: string, refresh: string, refreshJti: string)

  /** What Google answered: the userinfo fields and the subject of the ID token, if any. */
  datatype GoogleInfo = GoogleInfo(subject: string, email: string, name: string,
                                   picture: Option<string>, idTokenSubject: Option<string>)

  datatype Reply =
    | Ticked
    | SignedUp(user: UserId) | EmailConflict
    | VerificationIssued(user: UserId, raw: string) | NothingSent
    | EmailVerified(user: UserId) | VerifyRejected | AlreadyVerified
    | SignedIn(user: UserId, refresh: string) | AccountLocked | AttemptFailed(count: int, locks: bool) | EmailNotVerified
    | Refreshed(user: UserId, spent: string, minted: string) | RefreshRejected
    | LoggedOut(closed: Option<UserId>)
    | ResetIssued(user: UserId, raw: string)
    | PasswordReset(user: UserId) | ResetRejected
    | GoogleStarted | GoogleRejected | LinkRefused | IntegrityError
    | GoogleSignedIn(user: UserId, isNew: bool, refresh: string)

  // ----- Queries -----

  /** SELECT users WHERE email = ... */
  ghost function UserByEmail(db: Db, email: string): (r: Option<UserId>)
    ensures r.Some? ==> r.value in db.users && db.users[r.value].email == email
    ensures r.None? ==> forall u :: u in db.users ==> db.users[u].email != email
  {
    if u :| u in db.users && db.users[u].email == email then Some(u) else None
  }

  /** The user of the first `google` row with this subject among the rows. */
  function LinkedUser(rows: seq<Provider>, subject: string): (r: Option<UserId>)
    ensures r.Some? ==> Provider("google", Some(subject), r.value) in rows
    ensures r.None? ==> forall i :: 0 <= i < |rows| ==>
      !(rows[i].provider == "google" && rows[i].subject == Some(subject))
  {
    if rows == [] then None
    else if rows[0].provider == "google" && rows[0].subject == Some(subject) then Some(rows[0].user)
    else LinkedUser(rows[1..], subject)
  }

  // ----- Signup and verification -----

  ghost function SignUp(cfg: Settings, s: State, email: string, firstName: string, lastName: Option<string>,
                        passwordHash: string, id: UserId, raw: string): (State, Reply)
  {
    if UserByEmail(s.db, email).Some? then (s, EmailConflict)
    else
      var user := User(email, firstName, lastName, Some(passwordHash), false, None);
      var db := s.db.(users := s.db.users[id := user], providers := s.db.providers + [Provider("email", None, id)]);
      (IssueVerification(cfg, s, id, raw).(db := db), SignedUp(id))
  }

  function IssueVerification(cfg: Settings, s: State, id: UserId, raw: string): State {
    var keys := SetEx(s.redis.verify, s.now, Sha256(raw), id, cfg.verifyMinutes * 60);
    s.(redis := s.redis.(verify := keys), generated := s.generated + {raw})
  }

  ghost function ResendVerification(cfg: Settings, s: State, email: string, raw: string): (State, Reply) {
    var found := UserByEmail(s.db, email);
    if found.None? || s.db.users[found.value].verified then (s, NothingSent)
    else (IssueVerification(cfg, s, found.value, raw), VerificationIssued(found.value, raw))
  }

  function VerifyEmail(s: State, raw: string): (State, Reply) {
    var id := Get(s.redis.verify, s.now, Sha256(raw));
    var s1 := s.(redis := s.redis.(verify := Delete(s.redis.verify, Sha256(raw))));
    if id.None? then (s1, VerifyRejected)
    else if id.value !in s.db.users then (s1, VerifyRejected)
    else
      var user := s.db.users[id.value];
      if user.verified then (s1, AlreadyVerified)
      else (s1.(db := s.db.(users := s.db.users[id.value := user.(verified := true)])), EmailVerified(id.value))
  }

  // ----- Lockout -----

  predicate Locked(cfg: Settings, failed: map<string, Entry<int>>, now: Time, id: string) {
    var attempts := Get(failed, now, id);
    attempts.Some? && attempts.value >= cfg.maxAttempts
  }

  /** INCR, then EXPIRE only when the count is one. */
  function CountFailure(cfg: Settings, failed: map<string, Entry<int>>, now: Time, id: string): map<string, Entry<int>> {
    var m := Incr(failed, now, id);
    if m[id].value == 1 then Expire(m, now, id, cfg.lockoutWindow) else m
  }

  /** A wrong password or an unknown email; `locks` tells an AccountLockedError
      from an InvalidCredentialsError. */
  function FailedAttempt(cfg: Settings, s: State, id: string): (State, Reply) {
    var m := CountFailure(cfg, s.redis.failed, s.now, id);
    var count := Incr(s.redis.failed, s.now, id)[id].value;
    (s.(redis := s.redis.(failed := m)), AttemptFailed(count, count >= cfg.maxAttempts))
  }

  // ----- Sessions -----

  function AccessClaims(cfg: Settings, now: Time, u: UserId, jti: string): Claims {
    Claims(Some(u), Some(jti), Some(Seconds(now) + cfg.accessMinutes * 60))
  }

  function RefreshClaims(cfg: Settings, now: Time, u: UserId, jti: string): Claims {
    Claims(Some(u), Some(jti), Some(Seconds(now) + cfg.refreshDays * 86400))
  }

  function NewRow(cfg: Settings, now: Time, u: UserId): RefreshRow {
    RefreshRow(u, now + cfg.refreshDays * 86400 * TICKS_PER_SECOND, false)
  }

  function SignBoth(cfg: Settings, s: State, u: UserId, m: Mint): map<string, Claims> {
    s.signed[m.access := AccessClaims(cfg, s.now, u, m.accessJti)]
            [m.refresh := RefreshClaims(cfg, s.now, u, m.refreshJti)]
  }

  /** An access token, a refresh token and the row of the latter. */
  function OpenSession(cfg: Settings, s: State, u: UserId, m: Mint): State {
    s.(signed := SignBoth(cfg, s, u, m),
       db := s.db.(refresh := s.db.refresh[Sha256(m.refresh) := NewRow(cfg, s.now, u)]))
  }

  predicate PasswordAccepted(cfg: Settings, user: User, password: string) {
    user.passwordHash.Some? && user.passwordHash.value != "" && cfg.checkPassword(password, user.passwordHash.value)
  }

  ghost function SignIn(cfg: Settings, s: State, email: string, password: string, m: Mint): (State, Reply) {
    if Locked(cfg, s.redis.failed, s.now, email) then (s, AccountLocked)
    else
      var found := UserByEmail(s.db, email);
      if found.None? || !PasswordAccepted(cfg, s.db.users[found.value], password) then FailedAttempt(cfg, s, email)
      else
        var s1 := s.(redis := s.redis.(failed := Delete(s.redis.failed, email)));
        if !s.db.users[found.value].verified then (s1, EmailNotVerified)
        else (OpenSession(cfg, s1, found.value, m), SignedIn(found.value, m.refresh))
  }

  /** The jti and whole-second expiry a logout or refresh would blacklist. */
  function Revocable(signed: map<string, Claims>, access: Option<string>): Option<(string, nat)> {
    if access.None? || access.value == "" || access.value !in signed then None
    else
      var c := signed[access.value];
      if c.jti.None? || c.jti.value == "" || c.exp.None? || c.exp.value == 0 then None
      else Some((c.jti.value, c.exp.value))
  }

  function Blacklist(signed: map<string, Claims>, keys: map<string, Entry<()>>, now: Time, access: Option<string>)
    : map<string, Entry<()>>
  {
    var t := Revocable(signed, access);
    if t.Some? && t.value.1 > Seconds(now) then SetEx(keys, now, t.value.0, (), t.value.1 - Seconds(now)) else keys
  }

  function BlacklistIfValid(s: State, access: Option<string>): map<string, Entry<()>> {
    Blacklist(s.signed, s.redis.blacklist, s.now, access)
  }

  /** A refresh token is usable while its row is unrevoked, unexpired and owned. */
  predicate Usable(s: State, raw: string) {
    && Sha256(raw) in s.db.refresh
    && !s.db.refresh[Sha256(raw)].revoked
    && s.now <= s.db.refresh[Sha256(raw)].expiresAt
    && s.db.refresh[Sha256(raw)].user in s.db.users
  }

  function RefreshSession(cfg: Settings, s: State, raw: string, access: Option<string>, m: Mint): (State, Reply) {
    if !Usable(s, raw) then (s, RefreshRejected)
    else
      var row := s.db.refresh[Sha256(raw)];
      var s1 := OpenSession(cfg, s.(redis := s.redis.(blacklist := BlacklistIfValid(s, access))), row.user, m);
      (s1.(db := s1.db.(refresh := s1.db.refresh[Sha256(raw) := row.(revoked := true)])),
       Refreshed(row.user, raw, m.refresh))
  }

  function LogOut(s: State, raw: Option<string>, access: Option<string>): (State, Reply) {
    var s1 := s.(redis := s.redis.(blacklist := BlacklistIfValid(s, access)));
    if raw.Some? && raw.value != "" && Sha256(raw.value) in s.db.refresh && !s.db.refresh[Sha256(raw.value)].revoked then
      var row := s.db.refresh[Sha256(raw.value)];
      (s1.(db := s.db.(refresh := s.db.refresh[Sha256(raw.value) := row.(revoked := true)])), LoggedOut(Some(row.user)))
    else (s1, LoggedOut(None))
  }

  /** The user of a token that is signed, carries a jti that `revoked` does not
      hold, names an existing user, and expired less than `leeway` ago if at
      all. The jti is read before the blacklist, the subject after it. */
  function AcceptWithin(s: State, raw: string, revoked: set<string>, leeway: nat): Option<UserId> {
    if raw !in s.signed then None
    else
      var c := s.signed[raw];
      if c.exp.Some? && c.exp.value * TICKS_PER_SECOND + leeway <= s.now then None
      else if c.jti.None? || c.jti.value == "" || c.jti.value in revoked then None
      else if c.sub.None? || c.sub.value !in s.db.users then None
      else c.sub
  }

  function Blacklisted(s: State): set<string> {
    set j | j in s.redis.blacklist && Exists(s.redis.blacklist, s.now, j)
  }

  /** `get_current_user`, whose verifier has no leeway. */
  function CurrentUser(s: State, raw: string): Option<UserId> {
    AcceptWithin(s, raw, Blacklisted(s), 0)
  }

  // ----- Password reset -----

  ghost function RequestReset(cfg: Settings, s: State, email: string, raw: string): (State, Reply) {
    var found := UserByEmail(s.db, email);
    if found.None? then (s, NothingSent)
    else
      var keys := SetEx(s.redis.reset, s.now, Sha256(raw), Uuid(found.value), cfg.resetMinutes * 60);
      (s.(redis := s.redis.(reset := keys), generated := s.generated + {raw}), ResetIssued(found.value, raw))
  }

  function WithoutUser(refresh: map<Digest, RefreshRow>, u: UserId): map<Digest, RefreshRow> {
    map d | d in refresh && refresh[d].user != u :: refresh[d]
  }

  function ResetPassword(s: State, raw: string, newHash: string): (State, Reply) {
    var ref := Get(s.redis.reset, s.now, Sha256(raw));
    var s1 := s.(redis := s.redis.(reset := Delete(s.redis.reset, Sha256(raw))));
    if ref.None? || ref.value.Malformed? then (s1, ResetRejected)
    else if ref.value.id !in s.db.users then (s1, ResetRejected)
    else
      var u := ref.value.id;
      var user := s.db.users[u].(passwordHash := Some(newHash));
      (s1.(db := s.db.(users := s.db.users[u := user], refresh := WithoutUser(s.db.refresh, u))), PasswordReset(u))
  }

  // ----- Google -----

  function StartGoogle(cfg: Settings, s: State, state: string): (State, Reply) {
    var keys := SetEx(s.redis.oauth, s.now, state, (), cfg.oauthMinutes * 60);
    (s.(redis := s.redis.(oauth := keys), generated := s.generated + {state}), GoogleStarted)
  }

  datatype UpsertError = MissingUser | UnverifiedPasswordAccount | ConstraintFailed

  datatype Upserted = Upserted(db: Db, user: UserId, isNew: bool)

  /** The text before the first `@`: `email.split("@")[0]`. */
  function LocalPart(email: string): (r: string)
    ensures r <= email && '@' !in r
    ensures |r| < |email| ==> email[|r|] == '@'
  {
    if email == "" || email[0] == '@' then "" else [email[0]] + LocalPart(email[1..])
  }

  function GoogleUser(info: GoogleInfo): User {
    var names := PyStr.SplitOnce(info.name);
    var first := if names != [] then names[0] else LocalPart(info.email);
    var last := if |names| > 1 then Some(names[1]) else None;
    User(info.email, first, last, None, true, info.picture)
  }

  function Link(db: Db, u: UserId, subject: string): Db {
    db.(providers := db.providers + [Provider("google", Some(subject), u)])
  }

  /** An existing account found by email: marked verified, with the new picture. */
  function Adopt(user: User, picture: Option<string>): User {
    user.(verified := true, photo := if picture.Some? then picture else user.photo)
  }

  ghost function UpsertGoogleUser(db: Db, info: GoogleInfo, id: UserId): Result<Upserted, UpsertError> {
    var linked := LinkedUser(db.providers, info.subject);
    if linked.Some? then
      if linked.value in db.users then Ok(Upserted(db, linked.value, false)) else Err(MissingUser)
    else
      var found := UserByEmail(db, info.email);
      if found.None? then
        var db1 := Link(db.(users := db.users[id := GoogleUser(info)]), id, info.subject);
        if Consistent(db1) then Ok(Upserted(db1, id, true)) else Err(ConstraintFailed)
      else
        var user := db.users[found.value];
        if user.passwordHash.Some? && !user.verified then Err(UnverifiedPasswordAccount)
        else
          var db1 := Link(db.(users := db.users[found.value := Adopt(user, info.picture)]), found.value, info.subject);
          if Consistent(db1) then Ok(Upserted(db1, found.value, false)) else Err(ConstraintFailed)
  }

  /** The callback: consume the state, take Google's answer (None when the
      exchange failed), upsert, then open a session. */
  ghost function GoogleCallback(cfg: Settings, s: State, state: string, answer: Option<GoogleInfo>,
                                id: UserId, m: Mint): (State, Reply)
  {
    var valid := Get(s.redis.oauth, s.now, state).Some?;
    var s1 := s.(redis := s.redis.(oauth := Delete(s.redis.oauth, state)));
    if !valid || answer.None? then (s1, GoogleRejected)
    else if answer.value.idTokenSubject.Some? && answer.value.idTokenSubject != Some(answer.value.subject) then
      (s1, GoogleRejected)
    else
      match UpsertGoogleUser(s.db, answer.value, id)
      case Err(ConstraintFailed) => (s1, IntegrityError)
      case Err(_) => (s1, LinkRefused)
      case Ok(up) => (OpenSession(cfg, s1.(db := up.db), up.user, m), GoogleSignedIn(up.user, up.isNew, m.refresh))
  }
}
