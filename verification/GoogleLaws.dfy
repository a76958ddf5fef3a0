/** Laws of linking Google accounts. */
module GoogleLaws {
  import opened Wrappers
  import opened Redis
  import opened Auth
  import opened Runs
  import opened Invariants
  import opened SessionLaws
  import opened PyStr
  import opened NameMigration
  import opened FirstSession

  predicate HasGoogle(db: Db, u: UserId) {
    exists i :: 0 <= i < |db.providers| && db.providers[i].provider == "google" && db.providers[i].user == u
  }

  /** On consistent tables the upsert either yields consistent tables that hold
      a link of the subject to a verified user, or raises; a link is never
      found without its user. */
  lemma UpsertKeepsConstraints(db: Db, info: GoogleInfo, id: UserId)
    requires Consistent(db) && VerifiedOnly(db) && id !in db.users
    ensures match UpsertGoogleUser(db, info, id)
            case Ok(up) => Consistent(up.db) && VerifiedOnly(up.db)
              && Provider("google", Some(info.subject), up.user) in up.db.providers
              && up.user in up.db.users && up.db.users[up.user].verified
              && (up.isNew <==> up.user !in db.users)
            case Err(e) => e != MissingUser
  {
    UpsertKeeps(db, info, id);
    var r := UpsertGoogleUser(db, info, id);
    if r.Ok? && LinkedUser(db.providers, info.subject).None? {
      var rows := r.value.db.providers;
      assert rows[|rows| - 1] == Provider("google", Some(info.subject), r.value.user);
    }
  }

  /** The commit fails exactly when the account found by email is already linked
      to a Google account, necessarily of another subject. */
  lemma UpsertConflictsExactly(db: Db, info: GoogleInfo, id: UserId)
    requires Consistent(db) && VerifiedOnly(db) && id !in db.users
    ensures UpsertGoogleUser(db, info, id) == Err(ConstraintFailed) <==>
      LinkedUser(db.providers, info.subject).None?
      && UserByEmail(db, info.email).Some? && HasGoogle(db, UserByEmail(db, info.email).value)
  {
    var found := UserByEmail(db, info.email);
    if LinkedUser(db.providers, info.subject).None? {
      if found.None? {
        NewUserFits(db, info, id);
      } else {
        AdoptFits(db, info, found.value);
      }
    }
  }

  /** In any state, an upsert misses a user exactly when a link names nobody. */
  lemma UserMissingExactly(db: Db, info: GoogleInfo, id: UserId)
    ensures UpsertGoogleUser(db, info, id) == Err(MissingUser) <==>
      var linked := LinkedUser(db.providers, info.subject); linked.Some? && linked.value !in db.users
  {
  }

  /** When an upsert refuses, fails or goes through, and for whom: the user
      already linked, else the account with that email, else a new one. */
  lemma UpsertExactly(db: Db, info: GoogleInfo, id: UserId)
    requires Consistent(db) && VerifiedOnly(db) && id !in db.users
    ensures var linked, found, r := LinkedUser(db.providers, info.subject), UserByEmail(db, info.email), UpsertGoogleUser(db, info, id);
      var claimed := found.Some? && db.users[found.value].passwordHash.Some? && !db.users[found.value].verified;
      && (r == Err(UnverifiedPasswordAccount) <==> linked.None? && claimed)
      && (r == Err(ConstraintFailed) <==> linked.None? && found.Some? && HasGoogle(db, found.value))
      && (r.Ok? <==> linked.Some? || found.None? || (!claimed && !HasGoogle(db, found.value)))
      && (r.Ok? ==> r.value.user == (if linked.Some? then linked.value else if found.Some? then found.value else id))
      && (r.Ok? ==> (r.value.isNew <==> linked.None? && found.None?))
  {
    UpsertKeepsConstraints(db, info, id);
    UpsertConflictsExactly(db, info, id);
  }

  lemma OpeningIsLinked(cfg: Settings, s: State, info: GoogleInfo)
    requires JustOpened(cfg, s) && info.email == INFO.email && info.subject != INFO.subject
    ensures UserByEmail(s.db, info.email) == Some(USER) && HasGoogle(s.db, USER)
    ensures LinkedUser(s.db.providers, info.subject).None?
  {
    assert s.db.users[USER].email == info.email;
    assert s.db.providers[0] == Provider("google", Some(INFO.subject), USER);
  }

  lemma CallbackConflicts(cfg: Settings, s: State, state: string, info: GoogleInfo, id: UserId, m: Mint)
    requires UpsertGoogleUser(s.db, info, id) == Err(ConstraintFailed) && info.idTokenSubject.None?
    ensures GoogleCallback(cfg, s, state, Some(info), id, m).1 ==
      if Exists(s.redis.oauth, s.now, state) then IntegrityError else GoogleRejected
  {
  }

  lemma SecondCallback(cfg: Settings, s: State, state: string, info: GoogleInfo, id: UserId, m: Mint)
    requires Positive(cfg) && JustOpened(cfg, s) && Inv(s) && id != USER
    requires info.email == INFO.email && info.subject != INFO.subject && info.idTokenSubject.None?
    ensures GoogleCallback(cfg, StartGoogle(cfg, s, state).0, state, Some(info), id, m).1 == IntegrityError
  {
    OpeningIsLinked(cfg, s, info);
    UpsertConflictsExactly(s.db, info, id);
    CallbackConflicts(cfg, StartGoogle(cfg, s, state).0, state, info, id, m);
  }

  /** It does happen: the second callback of this run, with another Google
      account under the same email, ends in an IntegrityError. */
  lemma SecondAccountConflicts(cfg: Settings, state: string, info: GoogleInfo, id: UserId, m: Mint) returns (h: History)
    requires Positive(cfg) && state != "state" && id != USER && FreshMint(After(cfg, Opening()).signed, m)
    requires info.email == INFO.email && info.subject != INFO.subject && info.idTokenSubject.None?
    ensures h == Then(Then(Opening(), GoogleRequest(state)), CallbackRequest(state, Some(info), id, m)) && Valid(cfg, h)
    ensures Step(cfg, After(cfg, h.before), h.event).1 == IntegrityError
  {
    OpensSession(cfg);
    var g := Then(Opening(), GoogleRequest(state));
    h := Then(g, CallbackRequest(state, Some(info), id, m));
    assert Valid(cfg, g) && After(cfg, g) == StartGoogle(cfg, After(cfg, Opening()), state).0;
    Reachable(cfg, Opening());
    SecondCallback(cfg, After(cfg, Opening()), state, info, id, m);
  }

  lemma NewUserFits(db: Db, info: GoogleInfo, id: UserId)
    requires Consistent(db) && id !in db.users
    requires LinkedUser(db.providers, info.subject).None? && UserByEmail(db, info.email).None?
    ensures Consistent(Link(db.(users := db.users[id := GoogleUser(info)]), id, info.subject))
  {
  }

  lemma AdoptFits(db: Db, info: GoogleInfo, u: UserId)
    requires Consistent(db) && u in db.users && LinkedUser(db.providers, info.subject).None?
    ensures Consistent(Link(db.(users := db.users[u := Adopt(db.users[u], info.picture)]), u, info.subject))
      <==> !HasGoogle(db, u)
  {
    var db1 := Link(db.(users := db.users[u := Adopt(db.users[u], info.picture)]), u, info.subject);
    var n := |db.providers|;
    assert db1.providers[n] == Provider("google", Some(info.subject), u);
    assert forall i :: 0 <= i < n ==> db1.providers[i] == db.providers[i];
    if HasGoogle(db, u) {
      var i :| 0 <= i < n && db.providers[i].provider == "google" && db.providers[i].user == u;
      assert db1.providers[i] == db.providers[i];
      assert !ProviderUserUnique(db1);
    } else {
      assert EmailsUnique(db1) && ProviderSubjectUnique(db1) && ForeignKeys(db1) && ProviderUserUnique(db1);
    }
  }

  /** The upsert touches at most one account: a new one under the fresh id, or
      the one with that email, of which only verification and picture change. */
  lemma UpsertTouchesOneUser(db: Db, info: GoogleInfo, id: UserId, v: UserId)
    requires Consistent(db) && id !in db.users && UpsertGoogleUser(db, info, id).Ok?
    ensures var up := UpsertGoogleUser(db, info, id).value;
      && up.db.refresh == db.refresh
      && (up.isNew ==> up.user == id && up.db.users[id].email == info.email && up.db.users[id].passwordHash == None)
      && (v in db.users && v != up.user ==> v in up.db.users && up.db.users[v] == db.users[v])
      && (up.user in db.users ==>
            var was, now := db.users[up.user], up.db.users[up.user];
            && (now.email, now.firstName, now.lastName, now.passwordHash) == (was.email, was.firstName, was.lastName, was.passwordHash)
            && (now != was ==> was.email == info.email && now.verified)
            && (now != was ==> now.photo == if info.picture.Some? then info.picture else was.photo))
  {
  }

  /** A new account is named after the display name: the first word, and what
      follows the whitespace behind it if anything does; after the part of the
      email before the `@` when the display name is blank. */
  lemma NewUserIsNamed(info: GoogleInfo, s: Shape)
    ensures s.Ok() && s.Text() == info.name ==>
      && GoogleUser(info).firstName == s.word
      && GoogleUser(info).lastName == if s.rest == "" then None else Some(s.Last())
    ensures Blank(info.name) ==> GoogleUser(info).firstName == LocalPart(info.email) && GoogleUser(info).lastName == None
  {
    if s.Ok() && s.Text() == info.name {
      SplitOnceOfShape(s);
    }
    if Blank(info.name) {
      SplitRaisesExactly(info.name);
    }
  }

  /** A callback that does not sign in leaves every table as it was. */
  lemma RaisedLeavesTables(cfg: Settings, s: State, state: string, answer: Option<GoogleInfo>, id: UserId, m: Mint)
    ensures var (t, r) := GoogleCallback(cfg, s, state, answer, id, m);
      !r.GoogleSignedIn? ==> t.db == s.db && t.signed == s.signed
  {
  }

  lemma {:induction false} LinkFoundInLonger(rows: seq<Provider>, more: seq<Provider>, subject: string)
    requires rows <= more && LinkedUser(rows, subject).Some?
    ensures LinkedUser(more, subject) == LinkedUser(rows, subject)
  {
    if !(rows[0].provider == "google" && rows[0].subject == Some(subject)) {
      LinkFoundInLonger(rows[1..], more[1..], subject);
    }
  }

  lemma {:induction false} UniqueLinkFound(db: Db, rows: seq<Provider>, subject: string, u: UserId)
    requires ProviderSubjectUnique(db) && |rows| <= |db.providers| && rows == db.providers[|db.providers| - |rows|..]
    requires Provider("google", Some(subject), u) in rows
    ensures LinkedUser(rows, subject) == Some(u)
  {
    if rows[0].provider == "google" && rows[0].subject == Some(subject) {
      var i :| 0 <= i < |rows| && rows[i] == Provider("google", Some(subject), u);
      assert rows[i] == db.providers[|db.providers| - |rows| + i];
    } else {
      UniqueLinkFound(db, rows[1..], subject, u);
    }
  }

  /** Once a callback has signed in a Google subject, every later upsert with
      that subject, whatever its email, name or picture, returns the same user
      as an existing one and leaves the tables as they are. */
  lemma LinkIsForever(cfg: Settings, g: History, h: History, state: string, info: GoogleInfo, id: UserId, m: Mint,
                      later: GoogleInfo, id': UserId)
    requires Valid(cfg, h) && Extends(h, Then(g, CallbackRequest(state, Some(info), id, m)))
    requires Step(cfg, After(cfg, g), CallbackRequest(state, Some(info), id, m)).1.GoogleSignedIn?
    requires later.subject == info.subject
    ensures var u := Step(cfg, After(cfg, g), CallbackRequest(state, Some(info), id, m)).1.user;
      UpsertGoogleUser(After(cfg, h).db, later, id') == Ok(Upserted(After(cfg, h).db, u, false))
  {
    var g' := Then(g, CallbackRequest(state, Some(info), id, m));
    RunsGrow(cfg, g', h);
    Reachable(cfg, g);
    CallbackLinks(cfg, After(cfg, g), state, info, id, m);
    var rows := After(cfg, g').db.providers;
    LinkFoundInLonger(rows, After(cfg, h).db.providers, info.subject);
  }

  lemma UpsertLinks(db: Db, info: GoogleInfo, id: UserId)
    requires Consistent(db) && VerifiedOnly(db) && id !in db.users && UpsertGoogleUser(db, info, id).Ok?
    ensures var up := UpsertGoogleUser(db, info, id).value;
      LinkedUser(up.db.providers, info.subject) == Some(up.user) && up.user in up.db.users
  {
    UpsertKeepsConstraints(db, info, id);
    var up := UpsertGoogleUser(db, info, id).value;
    assert up.db.providers == up.db.providers[|up.db.providers| - |up.db.providers|..];
    UniqueLinkFound(up.db, up.db.providers, info.subject, up.user);
  }

  lemma CallbackLinks(cfg: Settings, s: State, state: string, info: GoogleInfo, id: UserId, m: Mint)
    requires Inv(s) && id !in s.db.users
    requires GoogleCallback(cfg, s, state, Some(info), id, m).1.GoogleSignedIn?
    ensures var (t, r) := GoogleCallback(cfg, s, state, Some(info), id, m);
      LinkedUser(t.db.providers, info.subject) == Some(r.user) && r.user in t.db.users
  {
    UpsertLinks(s.db, info, id);
  }
}
