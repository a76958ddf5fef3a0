/** Single-use secrets under interleaving: verification tokens, password reset
    tokens and OAuth states are stored with a lifetime and consumed by GETDEL,
    one atomic step, by any number of handlers at once. */
module SingleUse {
  import opened Wrappers
  import opened Redis
  import opened Auth
  import opened Invariants
  import SecretLaws

  datatype Secret = Verification(token: Digest) | Reset(token: Digest) | OauthState(state: string)

  type Pid = nat

  /** A handler that has yet to consume, got past with the stored value, or was turned away. */
  datatype Stage = Waiting | Past(value: UserRef) | TurnedAway

  datatype Handler = Handler(secret: Secret, stage: Stage)

  /** `issued` remembers every entry ever stored; Redis does not. */
  datatype Config = Config(now: Time, store: map<Secret, Entry<UserRef>>, handlers: map<Pid, Handler>,
                           issued: map<Secret, Entry<UserRef>>)

  datatype Action =
    | Pass(elapsed: nat)
    | Issue(secret: Secret, value: UserRef, ttl: nat)
    | Arrive(pid: Pid, secret: Secret)
    | Consume(pid: Pid)

  /** Secrets are drawn afresh; a handler consumes once. */
  predicate Enabled(c: Config, a: Action) {
    match a
    case Pass(_) => true
    case Issue(secret, _, ttl) => secret !in c.issued && ttl > 0
    case Arrive(pid, _) => pid !in c.handlers
    case Consume(pid) => pid in c.handlers && c.handlers[pid].stage == Waiting
  }

  function Next(c: Config, a: Action): Config
    requires Enabled(c, a)
  {
    match a
    case Pass(d) => c.(now := c.now + d)
    case Issue(secret, value, ttl) =>
      c.(store := SetEx(c.store, c.now, secret, value, ttl),
         issued := SetEx(c.issued, c.now, secret, value, ttl))
    case Arrive(pid, secret) => c.(handlers := c.handlers[pid := Handler(secret, Waiting)])
    case Consume(pid) =>
      var secret := c.handlers[pid].secret;
      var found := Get(c.store, c.now, secret);
      c.(store := Delete(c.store, secret),
         handlers := c.handlers[pid := Handler(secret, if found.Some? then Past(found.value) else TurnedAway)])
  }

  datatype Execution = Begin | Do(before: Execution, action: Action)

  ghost function Reached(x: Execution): Config
    requires Possible(x)
    decreases x, 1
  {
    match x
    case Begin => Config(0, map[], map[], map[])
    case Do(y, a) => Next(Reached(y), a)
  }

  ghost predicate Possible(x: Execution)
    decreases x, 0
  {
    x.Do? ==> Possible(x.before) && Enabled(Reached(x.before), x.action)
  }

  ghost predicate Won(c: Config, pid: Pid, secret: Secret) {
    pid in c.handlers && c.handlers[pid].secret == secret && c.handlers[pid].stage.Past?
  }

  /** A stored secret is as issued and has no winner; one that left the store
      was won or ran out; nobody wins twice, and the winner got what was issued. */
  ghost predicate Guarded(c: Config, secret: Secret) {
    && (secret in c.issued ==> c.issued[secret].expiry.Some?)
    && (secret in c.store ==> secret in c.issued && c.store[secret] == c.issued[secret])
    && (secret in c.store ==> forall pid :: !Won(c, pid, secret))
    && (secret in c.issued && secret !in c.store ==>
          !Live(c.issued[secret], c.now) || exists pid :: Won(c, pid, secret))
    && (forall pid :: Won(c, pid, secret) ==>
          secret in c.issued && c.handlers[pid].stage.value == c.issued[secret].value)
    && (forall p, q :: Won(c, p, secret) && Won(c, q, secret) ==> p == q)
  }

  lemma ConsumeKeepsGuard(c: Config, pid: Pid, secret: Secret)
    requires Enabled(c, Consume(pid)) && Guarded(c, secret)
    ensures Guarded(Next(c, Consume(pid)), secret)
  {
    var c' := Next(c, Consume(pid));
    forall p | p != pid || c.handlers[pid].secret != secret ensures Won(c', p, secret) <==> Won(c, p, secret) {}
    if c.handlers[pid].secret == secret {
      assert !Won(c, pid, secret);
      if Exists(c.store, c.now, secret) {
        assert Won(c', pid, secret);
      }
    }
    if secret in c.issued && secret !in c.store && Live(c.issued[secret], c.now) {
      var p :| Won(c, p, secret);
      assert Won(c', p, secret);
    }
  }

  lemma OtherKeepsGuard(c: Config, a: Action, secret: Secret)
    requires Enabled(c, a) && !a.Consume? && Guarded(c, secret)
    ensures Guarded(Next(c, a), secret)
  {
    var c' := Next(c, a);
    forall p ensures Won(c', p, secret) <==> Won(c, p, secret) {}
  }

  lemma {:induction false} AlwaysGuarded(x: Execution, secret: Secret)
    requires Possible(x)
    ensures Guarded(Reached(x), secret)
  {
    match x
    case Begin =>
    case Do(y, a) =>
      AlwaysGuarded(y, secret);
      match a {
        case Consume(pid) => ConsumeKeepsGuard(Reached(y), pid, secret);
        case _ => OtherKeepsGuard(Reached(y), a, secret);
      }
  }

  /** At most one of any number of concurrent handlers gets past the consumption
      of a secret, and it carries the user the secret was issued for. */
  lemma AtMostOneGetsPast(x: Execution, secret: Secret, p: Pid, q: Pid)
    requires Possible(x) && Won(Reached(x), p, secret) && Won(Reached(x), q, secret)
    ensures p == q
    ensures secret in Reached(x).issued && Reached(x).handlers[p].stage == Past(Reached(x).issued[secret].value)
  {
    AlwaysGuarded(x, secret);
  }

  /** A handler gets past exactly when its secret was issued, has not run out
      and nobody got past with it before. */
  lemma ConsumeDecides(x: Execution, pid: Pid)
    requires Possible(x) && Enabled(Reached(x), Consume(pid))
    ensures var c := Reached(x); var secret := c.handlers[pid].secret;
      Won(Next(c, Consume(pid)), pid, secret) <==>
        secret in c.issued && Live(c.issued[secret], c.now) && forall p :: !Won(c, p, secret)
  {
    AlwaysGuarded(x, Reached(x).handlers[pid].secret);
  }

  // ----- Run without interruption, the consumption is the serial handler's -----

  function Entries<K, V>(m: map<K, Entry<V>>, k: K): Option<Entry<V>> {
    if k in m then Some(m[k]) else None
  }

  function Retyped<V>(e: Option<Entry<V>>, value: V -> UserRef): Option<Entry<UserRef>> {
    if e.Some? then Some(Entry(value(e.value.value), e.value.expiry)) else None
  }

  /** The store holds the single-use keys of the serial state; a state has no user. */
  ghost predicate SameKeys(store: map<Secret, Entry<UserRef>>, keys: RedisKeys) {
    && (forall d :: Entries(store, Verification(d)) == Retyped(Entries(keys.verify, d), u => Uuid(u)))
    && (forall d :: Entries(store, Reset(d)) == Entries(keys.reset, d))
    && (forall o :: Entries(store, OauthState(o)) == Retyped(Entries(keys.oauth, o), _ => Malformed("1")))
  }

  lemma VerifyConsumes(c: Config, pid: Pid, s: State)
    requires Enabled(c, Consume(pid)) && SameKeys(c.store, s.redis) && c.now == s.now && RefsResolve(s)
    requires c.handlers[pid].secret.Verification?
    ensures var c', (t, r) := Next(c, Consume(pid)), VerifyEmail(s, c.handlers[pid].secret.token.raw);
      SameKeys(c'.store, t.redis) && (c'.handlers[pid].stage.TurnedAway? <==> r == VerifyRejected)
  {
    assert VerifyEmail(s, c.handlers[pid].secret.token.raw).0.redis
      == s.redis.(verify := Delete(s.redis.verify, c.handlers[pid].secret.token));
  }

  lemma ResetConsumes(c: Config, pid: Pid, s: State, hash: string)
    requires Enabled(c, Consume(pid)) && SameKeys(c.store, s.redis) && c.now == s.now && RefsResolve(s)
    requires c.handlers[pid].secret.Reset?
    ensures var c', (t, r) := Next(c, Consume(pid)), ResetPassword(s, c.handlers[pid].secret.token.raw, hash);
      && SameKeys(c'.store, t.redis)
      && (if r.PasswordReset? then c'.handlers[pid].stage == Past(Uuid(r.user)) else c'.handlers[pid].stage.TurnedAway?)
  {
  }

  /** The callback goes on when it got past and Google's answer is coherent. */
  lemma CallbackConsumes(c: Config, pid: Pid, s: State, cfg: Settings, answer: Option<GoogleInfo>, id: UserId, m: Mint)
    requires Enabled(c, Consume(pid)) && SameKeys(c.store, s.redis) && c.now == s.now
    requires c.handlers[pid].secret.OauthState?
    ensures var c', (t, r) := Next(c, Consume(pid)), GoogleCallback(cfg, s, c.handlers[pid].secret.state, answer, id, m);
      && SameKeys(c'.store, t.redis)
      && (r != GoogleRejected <==> c'.handlers[pid].stage.Past? && SecretLaws.Coherent(answer))
  {
    SecretLaws.CallbackKeys(cfg, s, c.handlers[pid].secret.state, answer, id, m);
    SecretLaws.CallbackNeedsState(cfg, s, c.handlers[pid].secret.state, answer, id, m);
    assert Entries(c.store, c.handlers[pid].secret)
      == Retyped(Entries(s.redis.oauth, c.handlers[pid].secret.state), _ => Malformed("1"));
  }
}
