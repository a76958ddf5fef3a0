/** The handlers as the program runs them: step by step on a database session,
    a Redis client and the token library, each proved against its function in
    `Auth`. */
module AuthService {
  import opened Wrappers
  import opened Redis
  import opened Sql
  import opened Auth

  // ----- The Redis client -----

  class RedisClient {
    var keys: RedisKeys

    constructor ()
      ensures keys == RedisKeys(map[], map[], map[], map[], map[])
    {
      keys := RedisKeys(map[], map[], map[], map[], map[]);
    }

    method BlacklistToken(now: Time, jti: string, remaining: int)
      modifies this
      ensures keys == if remaining > 0
        then old(keys).(blacklist := SetEx(old(keys).blacklist, now, jti, (), remaining)) else old(keys)
    {
      if remaining > 0 {
        keys := keys.(blacklist := SetEx(keys.blacklist, now, jti, (), remaining));
      }
    }

    method IsTokenBlacklisted(now: Time, jti: string) returns (b: bool)
      ensures b == Exists(keys.blacklist, now, jti)
    {
      b := Exists(keys.blacklist, now, jti);
    }

    method StoreVerificationToken(cfg: Settings, now: Time, token: Digest, id: UserId)
      modifies this
      ensures keys == old(keys).(verify := SetEx(old(keys).verify, now, token, id, cfg.verifyMinutes * 60))
    {
      keys := keys.(verify := SetEx(keys.verify, now, token, id, cfg.verifyMinutes * 60));
    }

    method ConsumeVerificationToken(now: Time, token: Digest) returns (id: Option<UserId>)
      modifies this
      ensures id == Get(old(keys).verify, now, token)
      ensures keys == old(keys).(verify := Delete(old(keys).verify, token))
    {
      id := Get(keys.verify, now, token);
      keys := keys.(verify := Delete(keys.verify, token));
    }

    method StorePasswordResetToken(cfg: Settings, now: Time, token: Digest, id: UserId)
      modifies this
      ensures keys == old(keys).(reset := SetEx(old(keys).reset, now, token, Uuid(id), cfg.resetMinutes * 60))
    {
      keys := keys.(reset := SetEx(keys.reset, now, token, Uuid(id), cfg.resetMinutes * 60));
    }

    method GetPasswordResetUserId(now: Time, token: Digest) returns (ref: Option<UserRef>)
      modifies this
      ensures ref == Get(old(keys).reset, now, token)
      ensures keys == old(keys).(reset := Delete(old(keys).reset, token))
    {
      ref := Get(keys.reset, now, token);
      keys := keys.(reset := Delete(keys.reset, token));
    }

    method StoreGoogleOauthState(cfg: Settings, now: Time, state: string)
      modifies this
      ensures keys == old(keys).(oauth := SetEx(old(keys).oauth, now, state, (), cfg.oauthMinutes * 60))
    {
      keys := keys.(oauth := SetEx(keys.oauth, now, state, (), cfg.oauthMinutes * 60));
    }

    method GetGoogleOauthState(now: Time, state: string) returns (valid: bool)
      modifies this
      ensures valid == Get(old(keys).oauth, now, state).Some?
      ensures keys == old(keys).(oauth := Delete(old(keys).oauth, state))
    {
      var stored := Get(keys.oauth, now, state);
      keys := keys.(oauth := Delete(keys.oauth, state));
      valid := stored.Some?;
    }

    method CheckLockout(cfg: Settings, now: Time, id: string) returns (locked: bool)
      ensures locked == Locked(cfg, keys.failed, now, id)
    {
      var attempts := Get(keys.failed, now, id);
      locked := attempts.Some? && attempts.value >= cfg.maxAttempts;
    }

    method IncrementFailedAttempts(cfg: Settings, now: Time, id: string) returns (count: int)
      modifies this
      ensures keys == old(keys).(failed := CountFailure(cfg, old(keys).failed, now, id))
      ensures count == Incr(old(keys).failed, now, id)[id].value
    {
      keys := keys.(failed := Incr(keys.failed, now, id));
      count := keys.failed[id].value;
      if count == 1 {
        keys := keys.(failed := Expire(keys.failed, now, id, cfg.lockoutWindow));
      }
    }

    method ResetAttempts(id: string)
      modifies this
      ensures keys == old(keys).(failed := Delete(old(keys).failed, id))
    {
      keys := keys.(failed := Delete(keys.failed, id));
    }
  }

  // ----- The token library -----

  /** Signs tokens and draws secrets; what has been signed is what decodes. */
  class Tokens {
    var signed: map<string, Claims>
    var generated: set<string>

    constructor ()
      ensures signed == map[] && generated == {}
    {
      signed, generated := map[], {};
    }

    method CreateAccessToken(cfg: Settings, now: Time, u: UserId, m: Mint)
      modifies this
      ensures signed == old(signed)[m.access := AccessClaims(cfg, now, u, m.accessJti)] && generated == old(generated)
    {
      signed := signed[m.access := Claims(Some(u), Some(m.accessJti), Some(Seconds(now) + cfg.accessMinutes * 60))];
    }

    method CreateRefreshToken(cfg: Settings, now: Time, u: UserId, m: Mint) returns (expires: Time)
      modifies this
      ensures signed == old(signed)[m.refresh := RefreshClaims(cfg, now, u, m.refreshJti)] && generated == old(generated)
      ensures expires == NewRow(cfg, now, u).expiresAt
    {
      expires := now + cfg.refreshDays * 86400 * TICKS_PER_SECOND;
      signed := signed[m.refresh := Claims(Some(u), Some(m.refreshJti), Some(Seconds(now) + cfg.refreshDays * 86400))];
    }

    method GenerateToken(raw: string) returns (digest: Digest)
      modifies this
      ensures digest == Sha256(raw) && generated == old(generated) + {raw} && signed == old(signed)
    {
      generated := generated + {raw};
      digest := Sha256(raw);
    }
  }

  ghost function Snapshot(now: Time, session: AsyncSession<Db>, redis: RedisClient, tokens: Tokens): State
    reads session, redis, tokens
  {
    State(now, session.committed, redis.keys, tokens.signed, tokens.generated)
  }

  // ----- Statements shared by the handlers -----

  lemma NewAccountFits(db: Db, id: UserId, user: User, row: Provider)
    requires Consistent(db) && id !in db.users && row.user == id && row.provider == "email" && row.subject == None
    requires UserByEmail(db, user.email).None?
    ensures var db1 := db.(users := db.users[id := user]);
      Consistent(db1) && Consistent(db1.(providers := db.providers + [row]))
  {
  }

  lemma NewSessionFits(db: Db, d: Digest, row: RefreshRow)
    requires Consistent(db) && row.user in db.users
    ensures Consistent(db.(refresh := db.refresh[d := row]))
  {
  }

  method SelectUserByEmail(session: AsyncSession<Db>, email: string) returns (r: Option<UserId>)
    requires EmailsUnique(session.working)
    ensures r == UserByEmail(session.working, email)
  {
    var users := session.working.users;
    if u :| u in users && users[u].email == email {
      r := Some(u);
    } else {
      r := None;
    }
  }

  /** Add a refresh row for a freshly signed pair of tokens. */
  method AddSession(cfg: Settings, now: Time, session: AsyncSession<Db>, tokens: Tokens, u: UserId, m: Mint)
    modifies session, tokens
    ensures session.committed == old(session.committed)
    ensures session.working == old(session.working).(refresh := old(session.working).refresh[Sha256(m.refresh) := NewRow(cfg, now, u)])
    ensures tokens.generated == old(tokens.generated)
    ensures tokens.signed == old(tokens.signed)[m.access := AccessClaims(cfg, now, u, m.accessJti)]
                                               [m.refresh := RefreshClaims(cfg, now, u, m.refreshJti)]
  {
    tokens.CreateAccessToken(cfg, now, u, m);
    var expires := tokens.CreateRefreshToken(cfg, now, u, m);
    var row := RefreshRow(u, expires, false);
    session.working := session.working.(refresh := session.working.refresh[Sha256(m.refresh) := row]);
  }

  method BlacklistAccessTokenIfValid(now: Time, redis: RedisClient, tokens: Tokens, access: Option<string>)
    modifies redis
    ensures redis.keys == old(redis.keys).(blacklist := Blacklist(tokens.signed, old(redis.keys).blacklist, now, access))
  {
    if access.None? || access.value == "" || access.value !in tokens.signed {
      return;
    }
    var payload := tokens.signed[access.value];
    if payload.jti.None? || payload.jti.value == "" || payload.exp.None? || payload.exp.value == 0 {
      return;
    }
    var remaining := payload.exp.value - Seconds(now);
    if remaining > 0 {
      redis.BlacklistToken(now, payload.jti.value, remaining);
    }
  }

  // ----- Signup and verification -----

  method SignUp(cfg: Settings, now: Time, session: AsyncSession<Db>, redis: RedisClient, tokens: Tokens,
                email: string, firstName: string, lastName: Option<string>, passwordHash: string,
                id: UserId, raw: string) returns (r: Reply)
    requires session.Clean(Consistent) && id !in session.committed.users
    modifies session, redis, tokens
    ensures session.Clean(Consistent)
    ensures (Snapshot(now, session, redis, tokens), r) == Auth.SignUp(cfg, old(Snapshot(now, session, redis, tokens)),
      email, firstName, lastName, passwordHash, id, raw)
  {
    var existing := SelectUserByEmail(session, email);
    if existing.Some? {
      return EmailConflict;
    }
    var user := User(email, firstName, lastName, Some(passwordHash), false, None);
    NewAccountFits(session.working, id, user, Provider("email", None, id));
    session.working := session.working.(users := session.working.users[id := user]);
    var flushed := session.Flush();
    assert flushed;  // an IntegrityError here takes a second signup in between
    session.working := session.working.(providers := session.working.providers + [Provider("email", None, id)]);
    var digest := tokens.GenerateToken(raw);
    redis.StoreVerificationToken(cfg, now, digest, id);
    var ok := session.Commit();
    r := if ok then SignedUp(id) else IntegrityError;
  }

  method ResendVerification(cfg: Settings, now: Time, session: AsyncSession<Db>, redis: RedisClient, tokens: Tokens,
                            email: string, raw: string) returns (r: Reply)
    requires session.Clean(Consistent)
    modifies redis, tokens
    ensures (Snapshot(now, session, redis, tokens), r) ==
      Auth.ResendVerification(cfg, old(Snapshot(now, session, redis, tokens)), email, raw)
  {
    var found := SelectUserByEmail(session, email);
    if found.None? {
      return NothingSent;
    }
    if session.working.users[found.value].verified {
      return NothingSent;
    }
    var digest := tokens.GenerateToken(raw);
    redis.StoreVerificationToken(cfg, now, digest, found.value);
    r := VerificationIssued(found.value, raw);
  }

  method VerifyEmail(now: Time, session: AsyncSession<Db>, redis: RedisClient, tokens: Tokens, raw: string)
    returns (r: Reply)
    requires session.Clean(Consistent)
    modifies session, redis
    ensures session.Clean(Consistent)
    ensures (Snapshot(now, session, redis, tokens), r) == Auth.VerifyEmail(old(Snapshot(now, session, redis, tokens)), raw)
  {
    var id := redis.ConsumeVerificationToken(now, Sha256(raw));
    if id.None? {
      return VerifyRejected;
    }
    if id.value !in session.working.users {
      return VerifyRejected;
    }
    var user := session.working.users[id.value];
    if user.verified {
      return AlreadyVerified;
    }
    session.working := session.working.(users := session.working.users[id.value := user.(verified := true)]);
    var ok := session.Commit();
    r := if ok then EmailVerified(id.value) else IntegrityError;
  }

  // ----- Sessions -----

  method SignIn(cfg: Settings, now: Time, session: AsyncSession<Db>, redis: RedisClient, tokens: Tokens,
                email: string, password: string, m: Mint) returns (r: Reply)
    requires session.Clean(Consistent)
    modifies session, redis, tokens
    ensures session.Clean(Consistent)
    ensures (Snapshot(now, session, redis, tokens), r) ==
      Auth.SignIn(cfg, old(Snapshot(now, session, redis, tokens)), email, password, m)
  {
    var locked := redis.CheckLockout(cfg, now, email);
    if locked {
      return AccountLocked;
    }
    var found := SelectUserByEmail(session, email);
    if found.None? {
      var attempts := redis.IncrementFailedAttempts(cfg, now, email);
      return AttemptFailed(attempts, attempts >= cfg.maxAttempts);
    }
    var user := session.working.users[found.value];
    if user.passwordHash.None? || user.passwordHash.value == "" || !cfg.checkPassword(password, user.passwordHash.value) {
      var attempts := redis.IncrementFailedAttempts(cfg, now, email);
      return AttemptFailed(attempts, attempts >= cfg.maxAttempts);
    }
    redis.ResetAttempts(email);
    if !user.verified {
      return EmailNotVerified;
    }
    AddSession(cfg, now, session, tokens, found.value, m);
    var ok := session.Commit();
    r := if ok then SignedIn(found.value, m.refresh) else IntegrityError;
  }

  method RefreshSession(cfg: Settings, now: Time, session: AsyncSession<Db>, redis: RedisClient, tokens: Tokens,
                        raw: string, access: Option<string>, m: Mint) returns (r: Reply)
    requires session.Clean(Consistent)
    modifies session, redis, tokens
    ensures session.Clean(Consistent)
    ensures (Snapshot(now, session, redis, tokens), r) ==
      Auth.RefreshSession(cfg, old(Snapshot(now, session, redis, tokens)), raw, access, m)
  {
    var digest := Sha256(raw);
    if digest !in session.working.refresh {
      return RefreshRejected;
    }
    var row := session.working.refresh[digest];
    if row.revoked {
      return RefreshRejected;
    }
    if row.expiresAt < now {
      return RefreshRejected;
    }
    if row.user !in session.working.users {
      return RefreshRejected;
    }
    BlacklistAccessTokenIfValid(now, redis, tokens, access);
    AddSession(cfg, now, session, tokens, row.user, m);
    session.working := session.working.(refresh := session.working.refresh[digest := row.(revoked := true)]);
    var ok := session.Commit();
    r := if ok then Refreshed(row.user, raw, m.refresh) else IntegrityError;
  }

  method LogOut(now: Time, session: AsyncSession<Db>, redis: RedisClient, tokens: Tokens,
                raw: Option<string>, access: Option<string>) returns (r: Reply)
    requires session.Clean(Consistent)
    modifies session, redis
    ensures session.Clean(Consistent)
    ensures (Snapshot(now, session, redis, tokens), r) ==
      Auth.LogOut(old(Snapshot(now, session, redis, tokens)), raw, access)
  {
    r := LoggedOut(None);
    if raw.Some? && raw.value != "" {
      var digest := Sha256(raw.value);
      if digest in session.working.refresh && !session.working.refresh[digest].revoked {
        var row := session.working.refresh[digest];
        session.working := session.working.(refresh := session.working.refresh[digest := row.(revoked := true)]);
        var ok := session.Commit();
        r := if ok then LoggedOut(Some(row.user)) else IntegrityError;
      }
    }
    BlacklistAccessTokenIfValid(now, redis, tokens, access);
  }

  /** The decision behind every authenticated endpoint; it writes nothing. */
  method GetCurrentUser(now: Time, session: AsyncSession<Db>, redis: RedisClient, tokens: Tokens, raw: string)
    returns (r: Option<UserId>)
    requires session.Clean(Consistent)
    ensures r == CurrentUser(Snapshot(now, session, redis, tokens), raw)
  {
    if raw !in tokens.signed {
      return None;
    }
    var payload := tokens.signed[raw];
    if payload.exp.Some? && payload.exp.value * TICKS_PER_SECOND <= now {
      return None;
    }
    if payload.jti.None? || payload.jti.value == "" {
      return None;
    }
    var revoked := redis.IsTokenBlacklisted(now, payload.jti.value);
    if revoked {
      return None;
    }
    if payload.sub.None? || payload.sub.value !in session.working.users {
      return None;
    }
    r := payload.sub;
  }

  // ----- Password reset -----

  method RequestPasswordReset(cfg: Settings, now: Time, session: AsyncSession<Db>, redis: RedisClient, tokens: Tokens,
                              email: string, raw: string) returns (r: Reply)
    requires session.Clean(Consistent)
    modifies redis, tokens
    ensures (Snapshot(now, session, redis, tokens), r) ==
      RequestReset(cfg, old(Snapshot(now, session, redis, tokens)), email, raw)
  {
    var found := SelectUserByEmail(session, email);
    if found.None? {
      return NothingSent;
    }
    var digest := tokens.GenerateToken(raw);
    redis.StorePasswordResetToken(cfg, now, digest, found.value);
    r := ResetIssued(found.value, raw);
  }

  method ResetPassword(now: Time, session: AsyncSession<Db>, redis: RedisClient, tokens: Tokens, raw: string, newHash: string)
    returns (r: Reply)
    requires session.Clean(Consistent)
    modifies session, redis
    ensures session.Clean(Consistent)
    ensures (Snapshot(now, session, redis, tokens), r) ==
      Auth.ResetPassword(old(Snapshot(now, session, redis, tokens)), raw, newHash)
  {
    var ref := redis.GetPasswordResetUserId(now, Sha256(raw));
    if ref.None? {
      return ResetRejected;
    }
    if ref.value.Malformed? {
      return ResetRejected;
    }
    var u := ref.value.id;
    if u !in session.working.users {
      return ResetRejected;
    }
    var user := session.working.users[u].(passwordHash := Some(newHash));
    session.working := session.working.(users := session.working.users[u := user]);
    session.working := session.working.(refresh := WithoutUser(session.working.refresh, u));
    var flushed := session.Flush();
    assert flushed;
    var ok := session.Commit();
    r := if ok then PasswordReset(u) else IntegrityError;
  }

  // ----- Google -----

  method BuildGoogleAuthUrl(cfg: Settings, now: Time, session: AsyncSession<Db>, redis: RedisClient, tokens: Tokens, state: string)
    returns (r: Reply)
    modifies redis, tokens
    ensures (Snapshot(now, session, redis, tokens), r) == StartGoogle(cfg, old(Snapshot(now, session, redis, tokens)), state)
  {
    var digest := tokens.GenerateToken(state);
    redis.StoreGoogleOauthState(cfg, now, state);
    r := GoogleStarted;
  }

  method UpsertGoogleUser(session: AsyncSession<Db>, info: GoogleInfo, id: UserId)
    returns (r: Result<(UserId, bool), UpsertError>)
    requires session.Clean(Consistent) && id !in session.committed.users
    modifies session
    ensures match Auth.UpsertGoogleUser(old(session.committed), info, id)
            case Ok(up) => session.Clean(Consistent) && session.committed == up.db && r == Ok((up.user, up.isNew))
            case Err(e) => session.Clean(Consistent) && session.committed == old(session.committed) && r == Err(e)
  {
    var u: UserId;
    var isNew := false;
    var provider := LinkedUser(session.working.providers, info.subject);
    if provider.Some? {
      u := provider.value;
      if u !in session.working.users {
        return Err(MissingUser);
      }
    } else {
      var existing := SelectUserByEmail(session, info.email);
      if existing.None? {
        isNew := true;
        u := id;
        session.working := session.working.(users := session.working.users[id := GoogleUser(info)]);
        var flushed := session.Flush();
        assert flushed;
      } else {
        u := existing.value;
        var user := session.working.users[u];
        if user.passwordHash.Some? && !user.verified {
          return Err(UnverifiedPasswordAccount);
        }
        user := user.(verified := true);
        if info.picture.Some? {
          user := user.(photo := info.picture);
        }
        session.working := session.working.(users := session.working.users[u := user]);
      }
    }
    if provider.None? {
      var row := Provider("google", Some(info.subject), u);
      session.working := session.working.(providers := session.working.providers + [row]);
    }
    var ok := session.Commit();
    r := if ok then Ok((u, isNew)) else Err(ConstraintFailed);
  }

  method GoogleCallback(cfg: Settings, now: Time, session: AsyncSession<Db>, redis: RedisClient, tokens: Tokens,
                        state: string, answer: Option<GoogleInfo>, id: UserId, m: Mint) returns (r: Reply)
    requires session.Clean(Consistent) && id !in session.committed.users
    modifies session, redis, tokens
    ensures session.Clean(Consistent)
    ensures (Snapshot(now, session, redis, tokens), r) ==
      Auth.GoogleCallback(cfg, old(Snapshot(now, session, redis, tokens)), state, answer, id, m)
  {
    var valid := redis.GetGoogleOauthState(now, state);
    if !valid || answer.None? {
      return GoogleRejected;
    }
    if answer.value.idTokenSubject.Some? && answer.value.idTokenSubject.value != answer.value.subject {
      return GoogleRejected;
    }
    var upserted := UpsertGoogleUser(session, answer.value, id);
    if upserted == Err(ConstraintFailed) {
      return IntegrityError;
    }
    if upserted.Err? {
      return LinkRefused;
    }
    var (u, isNew) := upserted.value;
    assert u in session.working.users;
    NewSessionFits(session.working, Sha256(m.refresh), NewRow(cfg, now, u));
    AddSession(cfg, now, session, tokens, u, m);
    var ok := session.Commit();
    r := if ok then GoogleSignedIn(u, isNew, m.refresh) else IntegrityError;
  }
}
