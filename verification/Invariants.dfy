/** What every reachable state of a serial run satisfies. */
module Invariants {
  import opened Wrappers
  import opened Redis
  import opened Auth
  import opened Runs

  /** No refresh row and no Google link without a verified user. Neither half
      is inductive alone: a callback over an existing link opens a session
      without looking at `is_email_verified`. */
  ghost predicate VerifiedOnly(db: Db) {
    && (forall d :: d in db.refresh ==> db.refresh[d].user in db.users && db.users[db.refresh[d].user].verified)
    && (forall i :: 0 <= i < |db.providers| && db.providers[i].provider == "google" ==>
          db.providers[i].user in db.users && db.users[db.providers[i].user].verified)
  }

  /** Every refresh row was minted as a signed token of the row's user. */
  ghost predicate RowsAreSigned(s: State) {
    forall d :: d in s.db.refresh ==> d.raw in s.signed && s.signed[d.raw].sub == Some(s.db.refresh[d].user)
  }

  /** A jti names one token, and every signed token has a jti and an expiry. */
  ghost predicate JtisUnique(signed: map<string, Claims>) {
    && (forall t :: t in signed ==> signed[t].jti.Some? && signed[t].jti.value != "" && signed[t].exp.Some?)
    && (forall t, t' :: t in signed && t' in signed && signed[t].jti == signed[t'].jti ==> t == t')
  }

  /** Stored single-use secrets point at existing users. */
  ghost predicate RefsResolve(s: State) {
    && (forall d :: d in s.redis.verify ==> s.redis.verify[d].value in s.db.users)
    && (forall d :: d in s.redis.reset ==>
          s.redis.reset[d].value.Uuid? && s.redis.reset[d].value.id in s.db.users)
  }

  ghost predicate Inv(s: State) {
    Consistent(s.db) && VerifiedOnly(s.db) && RowsAreSigned(s) && JtisUnique(s.signed) && RefsResolve(s)
  }

  lemma SignOneKeeps(signed: map<string, Claims>, raw: string, c: Claims)
    requires JtisUnique(signed) && raw !in signed
    requires c.jti.Some? && c.jti.value != "" && c.exp.Some?
    requires forall t :: t in signed ==> signed[t].jti != c.jti
    ensures JtisUnique(signed[raw := c])
  {
  }

  lemma SignBothKeeps(cfg: Settings, s: State, u: UserId, m: Mint)
    requires JtisUnique(s.signed) && FreshMint(s.signed, m)
    ensures JtisUnique(SignBoth(cfg, s, u, m))
  {
    var c := AccessClaims(cfg, s.now, u, m.accessJti);
    SignOneKeeps(s.signed, m.access, c);
    SignOneKeeps(s.signed[m.access := c], m.refresh, RefreshClaims(cfg, s.now, u, m.refreshJti));
  }

  lemma NewRowKeeps(cfg: Settings, db: Db, now: Time, u: UserId, d: Digest)
    requires Consistent(db) && VerifiedOnly(db) && u in db.users && db.users[u].verified
    ensures Consistent(db.(refresh := db.refresh[d := NewRow(cfg, now, u)]))
    ensures VerifiedOnly(db.(refresh := db.refresh[d := NewRow(cfg, now, u)]))
  {
  }

  lemma OpenSessionKeeps(cfg: Settings, s: State, u: UserId, m: Mint)
    requires Inv(s) && FreshMint(s.signed, m) && u in s.db.users && s.db.users[u].verified
    ensures Inv(OpenSession(cfg, s, u, m))
  {
    var t := OpenSession(cfg, s, u, m);
    assert JtisUnique(t.signed) by { SignBothKeeps(cfg, s, u, m); }
    NewRowKeeps(cfg, s.db, s.now, u, Sha256(m.refresh));
    assert RowsAreSigned(t);
  }

  lemma SignUpKeeps(cfg: Settings, s: State, email: string, first: string, last: Option<string>,
                    hash: string, id: UserId, raw: string)
    requires Inv(s) && id !in s.db.users
    ensures Inv(SignUp(cfg, s, email, first, last, hash, id, raw).0)
  {
  }

  lemma MarkVerifiedKeeps(db: Db, u: UserId)
    requires Consistent(db) && VerifiedOnly(db) && u in db.users
    ensures var db' := db.(users := db.users[u := db.users[u].(verified := true)]);
      Consistent(db') && VerifiedOnly(db')
  {
  }

  lemma VerifyKeeps(s: State, raw: string)
    requires Inv(s)
    ensures Inv(VerifyEmail(s, raw).0)
  {
    if VerifyEmail(s, raw).1.EmailVerified? {
      MarkVerifiedKeeps(s.db, VerifyEmail(s, raw).1.user);
    }
  }

  lemma RevokeKeeps(s: State, d: Digest)
    requires Inv(s) && d in s.db.refresh
    ensures Inv(s.(db := s.db.(refresh := s.db.refresh[d := s.db.refresh[d].(revoked := true)])))
  {
  }

  lemma RefreshKeeps(cfg: Settings, s: State, raw: string, access: Option<string>, m: Mint)
    requires Inv(s) && FreshMint(s.signed, m)
    ensures Inv(RefreshSession(cfg, s, raw, access, m).0)
  {
    if Usable(s, raw) {
      var row := s.db.refresh[Sha256(raw)];
      var s1 := s.(redis := s.redis.(blacklist := BlacklistIfValid(s, access)));
      OpenSessionKeeps(cfg, s1, row.user, m);
      assert OpenSession(cfg, s1, row.user, m).db.refresh[Sha256(raw)] == row;
      RevokeKeeps(OpenSession(cfg, s1, row.user, m), Sha256(raw));
    }
  }

  lemma SignInKeeps(cfg: Settings, s: State, email: string, password: string, m: Mint)
    requires Inv(s) && FreshMint(s.signed, m)
    ensures Inv(SignIn(cfg, s, email, password, m).0)
  {
    var r := SignIn(cfg, s, email, password, m).1;
    if r.SignedIn? {
      var s1 := s.(redis := s.redis.(failed := Delete(s.redis.failed, email)));
      OpenSessionKeeps(cfg, s1, UserByEmail(s.db, email).value, m);
    }
  }

  lemma LogOutKeeps(s: State, raw: Option<string>, access: Option<string>)
    requires Inv(s)
    ensures Inv(LogOut(s, raw, access).0)
  {
    if LogOut(s, raw, access).1.closed.Some? {
      RevokeKeeps(s.(redis := s.redis.(blacklist := BlacklistIfValid(s, access))), Sha256(raw.value));
    }
  }

  lemma ResetKeeps(s: State, raw: string, hash: string)
    requires Inv(s)
    ensures Inv(ResetPassword(s, raw, hash).0)
  {
  }

  lemma NewUserKeeps(db: Db, info: GoogleInfo, id: UserId)
    requires VerifiedOnly(db) && id !in db.users
    ensures VerifiedOnly(Link(db.(users := db.users[id := GoogleUser(info)]), id, info.subject))
  {
  }

  lemma AdoptKeeps(db: Db, info: GoogleInfo, u: UserId)
    requires VerifiedOnly(db) && u in db.users
    ensures VerifiedOnly(Link(db.(users := db.users[u := Adopt(db.users[u], info.picture)]), u, info.subject))
  {
  }

  lemma UpsertKeeps(db: Db, info: GoogleInfo, id: UserId)
    requires Consistent(db) && VerifiedOnly(db) && id !in db.users
    ensures match UpsertGoogleUser(db, info, id)
            case Ok(up) => Consistent(up.db) && VerifiedOnly(up.db) && up.user in up.db.users
              && up.db.users[up.user].verified && db.users.Keys <= up.db.users.Keys && up.db.refresh == db.refresh
            case Err(e) => e != MissingUser
  {
    if LinkedUser(db.providers, info.subject).None? {
      if UserByEmail(db, info.email).None? {
        NewUserKeeps(db, info, id);
      } else {
        AdoptKeeps(db, info, UserByEmail(db, info.email).value);
      }
    }
  }

  lemma CallbackKeeps(cfg: Settings, s: State, state: string, answer: Option<GoogleInfo>, id: UserId, m: Mint)
    requires Inv(s) && id !in s.db.users && FreshMint(s.signed, m)
    ensures Inv(GoogleCallback(cfg, s, state, answer, id, m).0)
  {
    if answer.Some? {
      UpsertKeeps(s.db, answer.value, id);
      var r := UpsertGoogleUser(s.db, answer.value, id);
      if r.Ok? {
        OpenSessionKeeps(cfg, s.(redis := s.redis.(oauth := Delete(s.redis.oauth, state)), db := r.value.db), r.value.user, m);
      }
    }
  }

  lemma StepKeeps(cfg: Settings, s: State, e: Event)
    requires Inv(s) && Fresh(s, e)
    ensures Inv(Step(cfg, s, e).0)
  {
    match e
    case SignupRequest(email, first, last, hash, id, raw) => SignUpKeeps(cfg, s, email, first, last, hash, id, raw);
    case VerifyRequest(raw) => VerifyKeeps(s, raw);
    case LoginRequest(email, password, m) => SignInKeeps(cfg, s, email, password, m);
    case RefreshRequest(raw, access, m) => RefreshKeeps(cfg, s, raw, access, m);
    case LogoutRequest(raw, access) => LogOutKeeps(s, raw, access);
    case ResetRequest(raw, hash) => ResetKeeps(s, raw, hash);
    case CallbackRequest(state, answer, id, m) => CallbackKeeps(cfg, s, state, answer, id, m);
    case _ =>
  }

  lemma {:induction false} Reachable(cfg: Settings, h: History)
    requires Valid(cfg, h)
    ensures Inv(After(cfg, h))
  {
    if h.Then? {
      Reachable(cfg, h.before);
      StepKeeps(cfg, After(cfg, h.before), h.event);
    }
  }
}
