/** Which account an email or a Google subject leads to, read off the log, and
    what the handlers that go by email do with it. */
module AccountLaws {
  import opened Wrappers
  import opened Auth
  import opened Runs
  import opened Invariants
  import opened SessionLaws
  import opened GoogleLaws

  // ----- Emails -----

  /** The account a record opens under this email: a signup, or a callback that says it is new. */
  function Registers(r: Record, email: string): Option<UserId> {
    if r.reply.SignedUp? && r.event.SignupRequest? && r.event.email == email then Some(r.reply.user)
    else if r.reply.GoogleSignedIn? && r.reply.isNew && AnswerOf(r.event).Some? && AnswerOf(r.event).value.email == email
    then Some(r.reply.user)
    else None
  }

  function AnswerOf(e: Event): Option<GoogleInfo> { if e.CallbackRequest? then e.answer else None }

  function AccountOf(log: seq<Record>, email: string): Option<UserId> {
    if log == [] then None
    else
      var u := Registers(log[|log| - 1], email);
      if u.Some? then u else AccountOf(log[..|log| - 1], email)
  }

  predicate HasEmail(db: Db, u: UserId, email: string) { u in db.users && db.users[u].email == email }

  lemma SignUpRegisters(cfg: Settings, s: State, email: string, first: string, last: Option<string>,
                        hash: string, id: UserId, raw: string, u: UserId, of: string)
    requires id !in s.db.users
    ensures var (t, r) := SignUp(cfg, s, email, first, last, hash, id, raw);
      HasEmail(t.db, u, of) <==> (r == SignedUp(u) && email == of) || HasEmail(s.db, u, of)
    ensures !SignUp(cfg, s, email, first, last, hash, id, raw).1.GoogleSignedIn?
  {
  }

  lemma UpsertRegisters(db: Db, info: GoogleInfo, id: UserId, u: UserId, of: string)
    requires id !in db.users && UpsertGoogleUser(db, info, id).Ok?
    ensures var up := UpsertGoogleUser(db, info, id).value;
      HasEmail(up.db, u, of) <==> (up.isNew && up.user == u && info.email == of) || HasEmail(db, u, of)
  {
  }

  lemma CallbackRegisters(cfg: Settings, s: State, state: string, answer: Option<GoogleInfo>, id: UserId, m: Mint,
                          u: UserId, of: string)
    requires id !in s.db.users
    ensures var (t, r) := GoogleCallback(cfg, s, state, answer, id, m);
      && !r.SignedUp?
      && (HasEmail(t.db, u, of) <==>
            (r.GoogleSignedIn? && r.isNew && r.user == u && answer.Some? && answer.value.email == of) || HasEmail(s.db, u, of))
  {
    if GoogleCallback(cfg, s, state, answer, id, m).1.GoogleSignedIn? {
      UpsertRegisters(s.db, answer.value, id, u, of);
    }
  }

  lemma OthersRegister(cfg: Settings, s: State, e: Event, u: UserId, of: string)
    requires !e.SignupRequest? && !e.CallbackRequest?
    ensures var (t, r) := Step(cfg, s, e);
      !r.SignedUp? && !r.GoogleSignedIn? && (HasEmail(t.db, u, of) <==> HasEmail(s.db, u, of))
  {
  }

  lemma StepRegisters(cfg: Settings, s: State, e: Event, u: UserId, of: string)
    requires Fresh(s, e)
    ensures var (t, r) := Step(cfg, s, e);
      HasEmail(t.db, u, of) <==> Registers(Record(s.now, e, r), of) == Some(u) || HasEmail(s.db, u, of)
  {
    match e
    case SignupRequest(email, first, last, hash, id, raw) =>
      SignUpRegisters(cfg, s, email, first, last, hash, id, raw, u, of);
    case CallbackRequest(state, answer, id, m) => CallbackRegisters(cfg, s, state, answer, id, m, u, of);
    case _ => OthersRegister(cfg, s, e, u, of);
  }

  /** The account of an email is the one its signup or first callback opened. */
  lemma {:induction false} AccountExactly(cfg: Settings, h: History, email: string)
    requires Valid(cfg, h)
    ensures UserByEmail(After(cfg, h).db, email) == AccountOf(Log(cfg, h), email)
  {
    if h.Then? {
      var s, t := After(cfg, h.before), After(cfg, h);
      AccountExactly(cfg, h.before, email);
      Reachable(cfg, h);
      assert Log(cfg, h)[..|Log(cfg, h)| - 1] == Log(cfg, h.before);
      forall u: UserId ensures HasEmail(t.db, u, email)
          <==> Registers(Record(s.now, h.event, Step(cfg, s, h.event).1), email) == Some(u) || HasEmail(s.db, u, email)
      {
        StepRegisters(cfg, s, h.event, u, email);
      }
      EmailIsUnique(t.db, email);
      Reachable(cfg, h.before);
      EmailIsUnique(s.db, email);
      assert AccountOf(Log(cfg, h), email)
        == var u := Registers(Record(s.now, h.event, Step(cfg, s, h.event).1), email);
           if u.Some? then u else UserByEmail(s.db, email);
    }
  }

  lemma EmailIsUnique(db: Db, email: string)
    requires EmailsUnique(db)
    ensures forall u: UserId :: HasEmail(db, u, email) <==> UserByEmail(db, email) == Some(u)
  {
  }

  // ----- Google links -----

  /** The user a callback with this Google subject signs in. */
  function Links(r: Record, subject: string): Option<UserId> {
    if r.reply.GoogleSignedIn? && AnswerOf(r.event).Some? && AnswerOf(r.event).value.subject == subject
    then Some(r.reply.user)
    else None
  }

  function LinkOf(log: seq<Record>, subject: string): Option<UserId> {
    if log == [] then None
    else
      var u := Links(log[|log| - 1], subject);
      if u.Some? then u else LinkOf(log[..|log| - 1], subject)
  }

  /** Google has signed in this user. */
  predicate GoogleUsed(log: seq<Record>, u: UserId) {
    exists i :: 0 <= i < |log| && log[i].reply.GoogleSignedIn? && log[i].reply.user == u
  }

  lemma {:induction false} LinkedUserAppend(rows: seq<Provider>, row: Provider, subject: string)
    ensures LinkedUser(rows + [row], subject) ==
      if LinkedUser(rows, subject).Some? then LinkedUser(rows, subject)
      else if row.provider == "google" && row.subject == Some(subject) then Some(row.user) else None
  {
    if rows == [] {
      assert rows + [row] == [row] && [row][1..] == [];
      assert LinkedUser([row][1..], subject) == None;
    } else {
      assert (rows + [row])[1..] == rows[1..] + [row];
      LinkedUserAppend(rows[1..], row, subject);
    }
  }

  /** Whether a row of `google` of the user exists, in any order. */
  lemma HasGoogleAppend(db: Db, db': Db, row: Provider, u: UserId)
    requires db'.providers == db.providers + [row]
    ensures HasGoogle(db', u) <==> HasGoogle(db, u) || (row.provider == "google" && row.user == u)
  {
    if HasGoogle(db, u) {
      var i :| 0 <= i < |db.providers| && db.providers[i].provider == "google" && db.providers[i].user == u;
      assert db'.providers[i] == db.providers[i];
    }
    assert db'.providers[|db.providers|] == row;
  }

  /** How an upsert that goes through changes the provider rows. */
  lemma UpsertRows(db: Db, info: GoogleInfo, id: UserId)
    requires UpsertGoogleUser(db, info, id).Ok?
    ensures var up := UpsertGoogleUser(db, info, id).value;
      up.db.providers == if LinkedUser(db.providers, info.subject).Some? then db.providers
                         else db.providers + [Provider("google", Some(info.subject), up.user)]
    ensures LinkedUser(db.providers, info.subject).Some? ==>
      UpsertGoogleUser(db, info, id).value.user == LinkedUser(db.providers, info.subject).value
  {
  }

  lemma UpsertLinksExactly(db: Db, info: GoogleInfo, id: UserId, subject: string, u: UserId)
    requires UpsertGoogleUser(db, info, id).Ok?
    ensures var up := UpsertGoogleUser(db, info, id).value;
      && LinkedUser(up.db.providers, subject) == (if subject == info.subject then Some(up.user) else LinkedUser(db.providers, subject))
      && (HasGoogle(up.db, u) <==> HasGoogle(db, u) || up.user == u)
  {
    var up := UpsertGoogleUser(db, info, id).value;
    UpsertRows(db, info, id);
    if LinkedUser(db.providers, info.subject).Some? {
      var i :| 0 <= i < |db.providers| && db.providers[i] == Provider("google", Some(info.subject), up.user);
    } else {
      LinkedUserAppend(db.providers, Provider("google", Some(info.subject), up.user), subject);
      HasGoogleAppend(db, up.db, Provider("google", Some(info.subject), up.user), u);
    }
  }

  lemma CallbackLinksExactly(cfg: Settings, s: State, state: string, answer: Option<GoogleInfo>, id: UserId, m: Mint,
                             subject: string, u: UserId)
    ensures var (t, r) := GoogleCallback(cfg, s, state, answer, id, m);
      && LinkedUser(t.db.providers, subject) ==
        (if r.GoogleSignedIn? && answer.Some? && answer.value.subject == subject then Some(r.user)
         else LinkedUser(s.db.providers, subject))
      && (HasGoogle(t.db, u) <==> HasGoogle(s.db, u) || (r.GoogleSignedIn? && r.user == u))
  {
    if GoogleCallback(cfg, s, state, answer, id, m).1.GoogleSignedIn? {
      UpsertLinksExactly(s.db, answer.value, id, subject, u);
    }
  }

  lemma SignUpLinksNothing(cfg: Settings, s: State, email: string, first: string, last: Option<string>,
                           hash: string, id: UserId, raw: string, subject: string, u: UserId)
    ensures var t := SignUp(cfg, s, email, first, last, hash, id, raw).0;
      LinkedUser(t.db.providers, subject) == LinkedUser(s.db.providers, subject) && (HasGoogle(t.db, u) <==> HasGoogle(s.db, u))
  {
    var t := SignUp(cfg, s, email, first, last, hash, id, raw).0;
    if UserByEmail(s.db, email).None? {
      LinkedUserAppend(s.db.providers, Provider("email", None, id), subject);
      HasGoogleAppend(s.db, t.db, Provider("email", None, id), u);
    }
  }

  lemma OthersLinkNothing(cfg: Settings, s: State, e: Event)
    requires !e.SignupRequest? && !e.CallbackRequest?
    ensures Step(cfg, s, e).0.db.providers == s.db.providers && !Step(cfg, s, e).1.GoogleSignedIn?
  {
  }

  lemma StepLinks(cfg: Settings, s: State, e: Event, subject: string, u: UserId)
    ensures var (t, r) := Step(cfg, s, e);
      && LinkedUser(t.db.providers, subject) ==
        (if Links(Record(s.now, e, r), subject).Some? then Links(Record(s.now, e, r), subject)
         else LinkedUser(s.db.providers, subject))
      && (HasGoogle(t.db, u) <==> HasGoogle(s.db, u) || (r.GoogleSignedIn? && r.user == u))
  {
    match e
    case SignupRequest(email, first, last, hash, id, raw) =>
      SignUpLinksNothing(cfg, s, email, first, last, hash, id, raw, subject, u);
    case CallbackRequest(state, answer, id, m) => CallbackLinksExactly(cfg, s, state, answer, id, m, subject, u);
    case _ => OthersLinkNothing(cfg, s, e);
  }

  /** The user of a Google subject is the one its callbacks signed in; who has
      a Google link is who any callback signed in. */
  lemma {:induction false} LinkExactly(cfg: Settings, h: History, subject: string, u: UserId)
    ensures LinkedUser(After(cfg, h).db.providers, subject) == LinkOf(Log(cfg, h), subject)
    ensures HasGoogle(After(cfg, h).db, u) <==> GoogleUsed(Log(cfg, h), u)
  {
    match h
    case Start =>
    case Then(g, e) =>
      LinkExactly(cfg, g, subject, u);
      StepLinks(cfg, After(cfg, g), e, subject, u);
      GoogleUsedAppend(Log(cfg, g), Record(After(cfg, g).now, e, Step(cfg, After(cfg, g), e).1), u);
      assert Log(cfg, h)[..|Log(cfg, h)| - 1] == Log(cfg, g);
  }

  lemma GoogleUsedAppend(log: seq<Record>, r: Record, u: UserId)
    ensures GoogleUsed(log + [r], u) <==> GoogleUsed(log, u) || (r.reply.GoogleSignedIn? && r.reply.user == u)
  {
    if GoogleUsed(log, u) {
      var i :| 0 <= i < |log| && log[i].reply.GoogleSignedIn? && log[i].reply.user == u;
      assert (log + [r])[i] == log[i];
    }
    assert (log + [r])[|log|] == r;
  }
}
