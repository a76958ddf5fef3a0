/** The shortest run that opens a session: the first callback of a new user. */
module FirstSession {
  import opened Wrappers
  import opened Redis
  import opened Auth
  import opened Runs

  const MINT := Mint("access", "jti of access", "refresh", "jti of refresh")
  const INFO := GoogleInfo("subject", "email", "name", None, None)
  const USER: UserId := 0

  function Opening(): History {
    Then(Then(Start, GoogleRequest("state")), CallbackRequest("state", Some(INFO), USER, MINT))
  }

  ghost predicate JustOpened(cfg: Settings, s: State) {
    && s.now == 0 && s.redis == RedisKeys(map[], map[], map[], map[], map[]) && s.generated == {"state"}
    && s.signed == map[MINT.access := AccessClaims(cfg, 0, USER, MINT.accessJti),
                       MINT.refresh := RefreshClaims(cfg, 0, USER, MINT.refreshJti)]
    && s.db == Db(map[USER := GoogleUser(INFO)], [Provider("google", Some(INFO.subject), USER)],
                  map[Sha256(MINT.refresh) := NewRow(cfg, 0, USER)])
  }

  /** A new user links an account on empty tables. */
  lemma FirstUpsert()
    ensures UpsertGoogleUser(Empty().db, INFO, USER) == Ok(Upserted(
      Db(map[USER := GoogleUser(INFO)], [Provider("google", Some(INFO.subject), USER)], map[]), USER, true))
  {
    var db := Link(Empty().db.(users := map[USER := GoogleUser(INFO)]), USER, INFO.subject);
    assert db.providers == [Provider("google", Some(INFO.subject), USER)] && Consistent(db);
  }

  lemma FirstCallback(cfg: Settings, s: State)
    requires Positive(cfg) && s == StartGoogle(cfg, Empty(), "state").0
    ensures var (t, r) := GoogleCallback(cfg, s, "state", Some(INFO), USER, MINT);
      JustOpened(cfg, t) && r == GoogleSignedIn(USER, true, MINT.refresh)
  {
    FirstUpsert();
    assert Delete(s.redis.oauth, "state") == map[];
  }

  lemma OpensSession(cfg: Settings)
    requires Positive(cfg)
    ensures Valid(cfg, Opening()) && JustOpened(cfg, After(cfg, Opening()))
    ensures var s := After(cfg, Opening().before);
      Step(cfg, s, Opening().event).1 == GoogleSignedIn(USER, true, MINT.refresh)
  {
    assert Valid(cfg, Start) && After(cfg, Start) == Empty();
    var h := Then(Start, GoogleRequest("state"));
    var s := After(cfg, h);
    assert Valid(cfg, h) && s == StartGoogle(cfg, Empty(), "state").0;
    FirstCallback(cfg, s);
  }
}
