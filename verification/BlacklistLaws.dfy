/** The self-expiring blacklist answers like a set that never forgets. */
module BlacklistLaws {
  import opened Wrappers
  import opened Redis
  import opened Auth
  import opened Runs
  import opened Invariants
  import opened SessionLaws

  /** The access token a step revokes: any logout, or a refresh that goes through. */
  function RevokedBy(s: State, e: Event): set<string> {
    var access := match e
                  case LogoutRequest(_, access) => access
                  case RefreshRequest(raw, access, _) => if Usable(s, raw) then access else None
                  case _ => None;
    var t := Revocable(s.signed, access);
    if t.Some? then {t.value.0} else {}
  }

  /** Every jti revoked so far, kept for ever. */
  ghost function EverRevoked(cfg: Settings, h: History): set<string> {
    match h
    case Start => {}
    case Then(g, e) => EverRevoked(cfg, g) + RevokedBy(After(cfg, g), e)
  }

  // ----- One entry -----

  /** The instant at which an entry written at `written` for a token of whole-second expiry `exp` vanishes. */
  function EntryEnd(exp: nat, written: Time): Time
    requires exp > Seconds(written)
  {
    written + (exp - Seconds(written)) * TICKS_PER_SECOND
  }

  /** It outlives the token, by less than a second. */
  lemma EntryOutlivesToken(exp: nat, written: Time)
    requires exp > Seconds(written)
    ensures EntryEnd(exp, written) == exp * TICKS_PER_SECOND + written % TICKS_PER_SECOND
    ensures exp * TICKS_PER_SECOND <= EntryEnd(exp, written) < (exp + 1) * TICKS_PER_SECOND
  {
  }

  /** Blacklisting writes at most the one entry of the token's jti, and never
      with a lifetime that is not positive, which Redis would reject; it writes
      none exactly when there is nothing to revoke or no whole second left. */
  lemma WritesLiveEntryOnly(s: State, access: Option<string>, j: string)
    ensures var m, t := BlacklistIfValid(s, access), Revocable(s.signed, access);
      if t.Some? && t.value.0 == j && Seconds(s.now) < t.value.1
      then j in m && m[j] == Entry((), Some(EntryEnd(t.value.1, s.now))) && Live(m[j], s.now)
      else (j in m <==> j in s.redis.blacklist) && (j in m ==> m[j] == s.redis.blacklist[j])
  {
  }

  // ----- The refinement -----

  /** Entries are of revoked jtis and end within a second after the token does;
      a revoked jti without a live entry belongs to a token that has expired. */
  ghost predicate Faithful(s: State, revoked: set<string>) {
    && (forall j :: j in revoked ==> exists t :: Names(s.signed, t, j))
    && (forall j :: j in s.redis.blacklist ==> j in revoked)
    && (forall t :: t in s.signed ==> TokenFaithful(s, s.signed[t], revoked))
  }

  predicate Names(signed: map<string, Claims>, t: string, jti: string) {
    t in signed && signed[t].jti == Some(jti)
  }

  ghost predicate TokenFaithful(s: State, c: Claims, revoked: set<string>) {
    c.jti.Some? && c.exp.Some? ==>
      && (c.jti.value in s.redis.blacklist ==> EndsWith(s.redis.blacklist[c.jti.value], c.exp.value))
      && (c.jti.value in revoked && s.now < c.exp.value * TICKS_PER_SECOND ==> c.jti.value in s.redis.blacklist)
  }

  predicate EndsWith(e: Entry<()>, exp: nat) {
    e.expiry.Some? && exp * TICKS_PER_SECOND <= e.expiry.value < (exp + 1) * TICKS_PER_SECOND
  }

  lemma BlacklistingKeeps(s: State, access: Option<string>, revoked: set<string>)
    requires JtisUnique(s.signed) && Faithful(s, revoked)
    ensures var t := Revocable(s.signed, access);
      Faithful(s.(redis := s.redis.(blacklist := BlacklistIfValid(s, access))),
               revoked + if t.Some? then {t.value.0} else {})
  {
    var r := Revocable(s.signed, access);
    if r.Some? {
      var s1 := s.(redis := s.redis.(blacklist := BlacklistIfValid(s, access)));
      var j, exp := r.value.0, r.value.1;
      assert Names(s.signed, access.value, j);
      forall t | t in s.signed && s.signed[t].jti == Some(j) ensures t == access.value {}
      if exp > Seconds(s.now) {
        EntryOutlivesToken(exp, s.now);
        assert s1.redis.blacklist[j] == Entry((), Some(EntryEnd(exp, s.now)));
      }
    }
  }

  lemma SigningKeeps(s: State, raw: string, c: Claims, revoked: set<string>)
    requires Faithful(s, revoked) && raw !in s.signed && c.jti.Some?
    requires forall t :: t in s.signed ==> s.signed[t].jti != c.jti
    ensures Faithful(s.(signed := s.signed[raw := c]), revoked)
  {
    assert forall t :: !Names(s.signed, t, c.jti.value);
    var signed := s.signed[raw := c];
    forall j | j in revoked ensures exists t :: Names(signed, t, j) {
      var t :| Names(s.signed, t, j);
      assert Names(signed, t, j);
    }
  }

  lemma MintKeeps(cfg: Settings, s: State, u: UserId, m: Mint, revoked: set<string>)
    requires Faithful(s, revoked) && FreshMint(s.signed, m)
    ensures Faithful(OpenSession(cfg, s, u, m), revoked)
  {
    var c := AccessClaims(cfg, s.now, u, m.accessJti);
    var s1 := s.(signed := s.signed[m.access := c]);
    SigningKeeps(s, m.access, c, revoked);
    SigningKeeps(s1, m.refresh, RefreshClaims(cfg, s.now, u, m.refreshJti), revoked);
  }

  lemma RefreshKeepsFaith(cfg: Settings, s: State, raw: string, access: Option<string>, m: Mint, revoked: set<string>)
    requires JtisUnique(s.signed) && Faithful(s, revoked) && FreshMint(s.signed, m)
    ensures Faithful(RefreshSession(cfg, s, raw, access, m).0, revoked + RevokedBy(s, RefreshRequest(raw, access, m)))
  {
    if Usable(s, raw) {
      var s1 := s.(redis := s.redis.(blacklist := BlacklistIfValid(s, access)));
      BlacklistingKeeps(s, access, revoked);
      MintKeeps(cfg, s1, s.db.refresh[Sha256(raw)].user, m, revoked + RevokedBy(s, RefreshRequest(raw, access, m)));
    }
  }

  lemma SignInKeepsFaith(cfg: Settings, s: State, email: string, password: string, m: Mint, revoked: set<string>)
    requires Faithful(s, revoked) && FreshMint(s.signed, m)
    ensures Faithful(SignIn(cfg, s, email, password, m).0, revoked)
  {
    if SignIn(cfg, s, email, password, m).1.SignedIn? {
      var s1 := s.(redis := s.redis.(failed := Delete(s.redis.failed, email)));
      MintKeeps(cfg, s1, UserByEmail(s.db, email).value, m, revoked);
    }
  }

  lemma CallbackSigning(cfg: Settings, s: State, state: string, answer: Option<GoogleInfo>, id: UserId, m: Mint)
    ensures var (t, r) := GoogleCallback(cfg, s, state, answer, id, m);
      && t.signed == (if r.GoogleSignedIn? then OpenSession(cfg, s, r.user, m).signed else s.signed)
      && t.redis.blacklist == s.redis.blacklist && t.now == s.now
  {
  }

  lemma CallbackKeepsFaith(cfg: Settings, s: State, state: string, answer: Option<GoogleInfo>, id: UserId, m: Mint,
                           revoked: set<string>)
    requires Faithful(s, revoked) && FreshMint(s.signed, m)
    ensures Faithful(GoogleCallback(cfg, s, state, answer, id, m).0, revoked)
  {
    CallbackSigning(cfg, s, state, answer, id, m);
    var (_, r) := GoogleCallback(cfg, s, state, answer, id, m);
    if r.GoogleSignedIn? {
      MintKeeps(cfg, s, r.user, m, revoked);
    }
  }

  /** Handlers that neither sign nor revoke; only the clock may move. */
  lemma OtherStep(cfg: Settings, s: State, e: Event)
    requires !e.LoginRequest? && !e.RefreshRequest? && !e.LogoutRequest? && !e.CallbackRequest?
    ensures var t := Step(cfg, s, e).0;
      t.signed == s.signed && t.redis.blacklist == s.redis.blacklist && s.now <= t.now
  {
  }

  lemma LogOutKeepsFaith(s: State, raw: Option<string>, access: Option<string>, revoked: set<string>)
    requires JtisUnique(s.signed) && Faithful(s, revoked)
    ensures Faithful(LogOut(s, raw, access).0, revoked + RevokedBy(s, LogoutRequest(raw, access)))
  {
    BlacklistingKeeps(s, access, revoked);
  }

  lemma StepKeepsFaith(cfg: Settings, s: State, e: Event, revoked: set<string>)
    requires Inv(s) && Fresh(s, e) && Faithful(s, revoked)
    ensures Faithful(Step(cfg, s, e).0, revoked + RevokedBy(s, e))
  {
    match e
    case LoginRequest(email, password, m) =>
      SignInKeepsFaith(cfg, s, email, password, m, revoked);
      assert revoked + RevokedBy(s, e) == revoked;
    case RefreshRequest(raw, access, m) => RefreshKeepsFaith(cfg, s, raw, access, m, revoked);
    case LogoutRequest(raw, access) => LogOutKeepsFaith(s, raw, access, revoked);
    case CallbackRequest(state, answer, id, m) =>
      CallbackKeepsFaith(cfg, s, state, answer, id, m, revoked);
      assert revoked + RevokedBy(s, e) == revoked;
    case _ =>
      OtherStep(cfg, s, e);
      assert revoked + RevokedBy(s, e) == revoked;
  }

  lemma {:induction false} RunsAreFaithful(cfg: Settings, h: History)
    requires Valid(cfg, h)
    ensures Faithful(After(cfg, h), EverRevoked(cfg, h))
  {
    if h.Then? {
      Reachable(cfg, h.before);
      RunsAreFaithful(cfg, h.before);
      StepKeepsFaith(cfg, After(cfg, h.before), h.event, EverRevoked(cfg, h.before));
    }
  }

  /** In every run `get_current_user` answers, for every token, as it would with
      a permanent set of every jti ever revoked. */
  lemma BlacklistRefinesPermanentSet(cfg: Settings, h: History, raw: string)
    requires Valid(cfg, h)
    ensures CurrentUser(After(cfg, h), raw) == AcceptWithin(After(cfg, h), raw, EverRevoked(cfg, h), 0)
  {
    RunsAreFaithful(cfg, h);
    Reachable(cfg, h);
  }

  lemma {:induction false} RevokedGrows(cfg: Settings, g: History, h: History)
    requires Extends(h, g)
    ensures EverRevoked(cfg, g) <= EverRevoked(cfg, h)
  {
    if h != g {
      RevokedGrows(cfg, g, h.before);
    }
  }

  /** A token handed to a logout is never accepted again. */
  lemma LoggedOutTokenIsRefused(cfg: Settings, g: History, h: History, refresh: Option<string>, access: string)
    requires Valid(cfg, h) && Extends(h, Then(g, LogoutRequest(refresh, Some(access))))
    requires access != "" && access in After(cfg, g).signed
    ensures CurrentUser(After(cfg, h), access) == None
  {
    var g' := Then(g, LogoutRequest(refresh, Some(access)));
    RunsGrow(cfg, g', h);
    RunsGrow(cfg, g, g');
    RevokedGrows(cfg, g', h);
    Reachable(cfg, g);
    BlacklistRefinesPermanentSet(cfg, h, access);
  }
}
