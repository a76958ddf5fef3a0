/** Sign-in handlers interleaved at the level of single Redis commands: each
    GET, INCR, EXPIRE and DEL is one atomic step, any number of handlers run at
    once for any number of identifiers, and the clock moves between steps. */
module LockoutInterleaving {
  import opened Wrappers
  import opened Redis
  import opened Auth

  type Pid = nat

  /** Where a handler stands: about to GET, past the check with its password
      still to be judged, having seen count one with its EXPIRE still to run, or
      finished. */
  datatype Stage = Entering | Checked | MustExpire | Finished

  datatype Handler = Handler(id: string, stage: Stage)

  datatype Config = Config(now: Time, failed: map<string, Entry<int>>, handlers: map<Pid, Handler>)

  datatype Action =
    | Pass(elapsed: nat)                // the clock moves
    | Arrive(pid: Pid, id: string)      // a request comes in
    | Check(pid: Pid)                   // GET, and raise or go on
    | Wrong(pid: Pid)                   // INCR after a wrong password or unknown email
    | Right(pid: Pid)                   // DEL after a correct password
    | SetExpiry(pid: Pid)               // EXPIRE by the handler that saw one
    | Crash(pid: Pid)                   // the process dies

  predicate At(c: Config, pid: Pid, stage: Stage) {
    pid in c.handlers && c.handlers[pid].stage == stage
  }

  predicate Enabled(c: Config, a: Action) {
    match a
    case Pass(_) => true
    case Arrive(pid, _) => pid !in c.handlers
    case Check(pid) => At(c, pid, Entering)
    case Wrong(pid) => At(c, pid, Checked)
    case Right(pid) => At(c, pid, Checked)
    case SetExpiry(pid) => At(c, pid, MustExpire)
    case Crash(pid) => pid in c.handlers
  }

  function Move(c: Config, pid: Pid, stage: Stage): map<Pid, Handler>
    requires pid in c.handlers
  {
    c.handlers[pid := c.handlers[pid].(stage := stage)]
  }

  function Next(cfg: Settings, c: Config, a: Action): Config
    requires Enabled(c, a)
  {
    match a
    case Pass(d) => c.(now := c.now + d)
    case Arrive(pid, id) => c.(handlers := c.handlers[pid := Handler(id, Entering)])
    case Check(pid) =>
      var locked := Locked(cfg, c.failed, c.now, c.handlers[pid].id);
      c.(handlers := Move(c, pid, if locked then Finished else Checked))
    case Wrong(pid) =>
      var m := Incr(c.failed, c.now, c.handlers[pid].id);
      var first := m[c.handlers[pid].id].value == 1;
      c.(failed := m, handlers := Move(c, pid, if first then MustExpire else Finished))
    case Right(pid) =>
      c.(failed := Delete(c.failed, c.handlers[pid].id), handlers := Move(c, pid, Finished))
    case SetExpiry(pid) =>
      c.(failed := Expire(c.failed, c.now, c.handlers[pid].id, cfg.lockoutWindow), handlers := Move(c, pid, Finished))
    case Crash(pid) => c.(handlers := c.handlers - {pid})
  }

  /** Executions, latest action last. */
  datatype Execution = Begin | Do(before: Execution, action: Action)

  function Idle(): Config { Config(0, map[], map[]) }

  ghost function Reached(cfg: Settings, x: Execution): Config
    requires Possible(cfg, x)
    decreases x, 1
  {
    match x
    case Begin => Idle()
    case Do(y, a) => Next(cfg, Reached(cfg, y), a)
  }

  ghost predicate Possible(cfg: Settings, x: Execution)
    decreases x, 0
  {
    x.Do? ==> Possible(cfg, x.before) && Enabled(Reached(cfg, x.before), x.action)
  }

  // ----- The counter and the requests on their way to it -----

  /** The handlers of `id` past the check whose outcome is still open. */
  function Pending(c: Config, id: string): set<Pid> {
    set pid | pid in c.handlers && c.handlers[pid] == Handler(id, Checked)
  }

  function Count(c: Config, id: string): int {
    if Exists(c.failed, c.now, id) then c.failed[id].value else 0
  }

  /** At every point at most `k` requests for `id` are past the check. */
  ghost predicate AtMostPending(cfg: Settings, x: Execution, id: string, k: nat)
    requires Possible(cfg, x)
  {
    |Pending(Reached(cfg, x), id)| <= k && (x.Do? ==> AtMostPending(cfg, x.before, id, k))
  }

  lemma PendingMoves(cfg: Settings, c: Config, a: Action, id: string)
    requires Enabled(c, a)
    ensures var p, q := Pending(c, id), Pending(Next(cfg, c, a), id);
      match a
      case Check(pid) =>
        if c.handlers[pid].id == id && !Locked(cfg, c.failed, c.now, id) then q == p + {pid} && pid !in p else q == p
      case Wrong(pid) => q == p - {pid} && (pid in p <==> c.handlers[pid].id == id)
      case Right(pid) => q == p - {pid}
      case Crash(pid) => q == p - {pid}
      case _ => q == p
  {
  }

  /** What a step does to the live count of `id`. */
  lemma CountMoves(cfg: Settings, c: Config, a: Action, id: string)
    requires Enabled(c, a) && Count(c, id) >= 0
    ensures var n, n' := Count(c, id), Count(Next(cfg, c, a), id);
      match a
      case Wrong(pid) => n' == if c.handlers[pid].id == id then n + 1 else n
      case _ => n' == n || n' == 0
  {
  }

  lemma BoundStep(cfg: Settings, c: Config, a: Action, id: string, k: nat)
    requires Enabled(c, a) && cfg.maxAttempts >= 1
    requires Count(c, id) >= 0 && Count(c, id) + |Pending(c, id)| <= cfg.maxAttempts - 1 + k
    requires |Pending(Next(cfg, c, a), id)| <= k
    ensures Count(Next(cfg, c, a), id) >= 0
    ensures Count(Next(cfg, c, a), id) + |Pending(Next(cfg, c, a), id)| <= cfg.maxAttempts - 1 + k
  {
    CountMoves(cfg, c, a, id);
    PendingMoves(cfg, c, a, id);
  }

  /** Under every interleaving in which at most `k` requests for `id` are ever
      between the check and their outcome, the counter together with those
      requests never exceeds `MAX_LOGIN_ATTEMPTS - 1 + k`, resets, expiries and
      crashes included. */
  lemma {:induction false} ConcurrentLockoutBound(cfg: Settings, x: Execution, id: string, k: nat)
    requires cfg.maxAttempts >= 1 && Possible(cfg, x) && AtMostPending(cfg, x, id, k)
    ensures var c := Reached(cfg, x);
      0 <= Count(c, id) && Count(c, id) + |Pending(c, id)| <= cfg.maxAttempts - 1 + k
  {
    if x.Do? {
      ConcurrentLockoutBound(cfg, x.before, id, k);
      BoundStep(cfg, Reached(cfg, x.before), x.action, id, k);
    }
  }

  // ----- Which counters have no end -----

  predicate Endless(c: Config, id: string) { id in c.failed && c.failed[id].expiry.None? }

  /** `pid` saw count one for `id` and has its EXPIRE still to run. */
  predicate Due(c: Config, pid: Pid, id: string) {
    pid in c.handlers && c.handlers[pid] == Handler(id, MustExpire)
  }

  ghost predicate ExpiryPending(c: Config, id: string) {
    exists pid :: Due(c, pid, id)
  }

  /** The crash takes away the last handler due to set the expiry `id` still lacks. */
  ghost predicate LosesExpiry(c: Config, pid: Pid, id: string) {
    Due(c, pid, id) && Endless(c, id) && forall other :: Due(c, other, id) ==> other == pid
  }

  /** Such a crash happened, and no correct password has been given for `id` since. */
  ghost predicate Abandoned(cfg: Settings, x: Execution, id: string)
    requires Possible(cfg, x)
  {
    match x
    case Begin => false
    case Do(y, Crash(pid)) => Abandoned(cfg, y, id) || LosesExpiry(Reached(cfg, y), pid, id)
    case Do(y, Right(pid)) => Abandoned(cfg, y, id) && Reached(cfg, y).handlers[pid].id != id
    case Do(y, _) => Abandoned(cfg, y, id)
  }

  ghost predicate Stuck(c: Config, id: string) { Endless(c, id) && !ExpiryPending(c, id) }

  /** Only a crash makes a counter stuck, and only a correct password frees it. */
  lemma StuckStep(cfg: Settings, c: Config, a: Action, id: string)
    requires Enabled(c, a) && (id in c.failed ==> c.failed[id].value >= 1)
    ensures Stuck(Next(cfg, c, a), id) <==>
      match a
      case Crash(pid) => Stuck(c, id) || LosesExpiry(c, pid, id)
      case Right(pid) => Stuck(c, id) && c.handlers[pid].id != id
      case _ => Stuck(c, id)
  {
    var c' := Next(cfg, c, a);
    forall p ensures Due(c', p, id) <==> match a
      case Wrong(pid) => Due(c, p, id) || (p == pid && c.handlers[pid].id == id && !Exists(c.failed, c.now, id))
      case SetExpiry(pid) => Due(c, p, id) && p != pid
      case Crash(pid) => Due(c, p, id) && p != pid
      case _ => Due(c, p, id)
    {
    }
    if ExpiryPending(c, id) {
      var p :| Due(c, p, id);
      assert Due(c', p, id) || a == SetExpiry(p) || a == Crash(p);
      if a == Crash(p) && Endless(c, id) && !LosesExpiry(c, p, id) {
        var other :| Due(c, other, id) && other != p;
        assert Due(c', other, id);
      }
    }
    if Endless(c', id) && !Endless(c, id) {
      assert Due(c', a.pid, id);
    }
    if a.SetExpiry? && c.handlers[a.pid].id == id {
      assert Due(c, a.pid, id);
    }
  }

  lemma {:induction false} CountsPositive(cfg: Settings, x: Execution)
    requires Possible(cfg, x)
    ensures forall k :: k in Reached(cfg, x).failed ==> Reached(cfg, x).failed[k].value >= 1
  {
    if x.Do? {
      CountsPositive(cfg, x.before);
    }
  }

  /** A counter without an expiry that no handler is due to end exists exactly
      when a crash took the last such handler away and no correct password has
      been given since. */
  lemma {:induction false} NoStuckLock(cfg: Settings, x: Execution, id: string)
    requires Possible(cfg, x)
    ensures Stuck(Reached(cfg, x), id) <==> Abandoned(cfg, x, id)
  {
    if x.Do? {
      NoStuckLock(cfg, x.before, id);
      CountsPositive(cfg, x.before);
      StuckStep(cfg, Reached(cfg, x.before), x.action, id);
    }
  }

  lemma {:induction false} ExpiryBounded(cfg: Settings, x: Execution, id: string)
    requires Possible(cfg, x)
    ensures var c := Reached(cfg, x);
      id in c.failed && c.failed[id].expiry.Some? ==>
        c.failed[id].expiry.value <= c.now + cfg.lockoutWindow * TICKS_PER_SECOND
  {
    if x.Do? {
      ExpiryBounded(cfg, x.before, id);
    }
  }

  /** Whenever no handler of `id` is due to set an expiry, its counter is gone
      one lockout window from now exactly when it is not abandoned; an
      abandoned one, left alone, stays for ever. */
  lemma EveryLockEnds(cfg: Settings, x: Execution, id: string, later: Time)
    requires Possible(cfg, x) && !ExpiryPending(Reached(cfg, x), id)
    requires later >= Reached(cfg, x).now + cfg.lockoutWindow * TICKS_PER_SECOND
    ensures Exists(Reached(cfg, x).failed, later, id) <==> Abandoned(cfg, x, id)
  {
    NoStuckLock(cfg, x, id);
    ExpiryBounded(cfg, x, id);
  }

  ghost predicate CrashFree(x: Execution) {
    x.Do? ==> !x.action.Crash? && CrashFree(x.before)
  }

  /** Without crashes no counter is ever abandoned. */
  lemma {:induction false} CrashFreeAbandonsNothing(cfg: Settings, x: Execution, id: string)
    requires Possible(cfg, x) && CrashFree(x)
    ensures !Abandoned(cfg, x, id)
    ensures Endless(Reached(cfg, x), id) ==> ExpiryPending(Reached(cfg, x), id)
  {
    if x.Do? {
      CrashFreeAbandonsNothing(cfg, x.before, id);
    }
    NoStuckLock(cfg, x, id);
  }

  /** It does happen: one crash between INCR and EXPIRE abandons a counter, with
      no handler left at all. */
  lemma CrashLeavesEndlessCounter(cfg: Settings, id: string) returns (x: Execution)
    requires cfg.maxAttempts >= 1
    ensures Possible(cfg, x) && Abandoned(cfg, x, id)
    ensures Endless(Reached(cfg, x), id) && Reached(cfg, x).handlers == map[]
  {
    assert Possible(cfg, Begin) && Reached(cfg, Begin) == Idle();
    var x1 := Do(Begin, Arrive(0, id));
    assert Possible(cfg, x1) && Reached(cfg, x1) == Config(0, map[], map[0 := Handler(id, Entering)]);
    var x2 := Do(x1, Check(0));
    assert Possible(cfg, x2) && Reached(cfg, x2) == Config(0, map[], map[0 := Handler(id, Checked)]);
    var x3 := Do(x2, Wrong(0));
    assert Possible(cfg, x3) && Reached(cfg, x3) == Config(0, map[id := Entry(1, None)], map[0 := Handler(id, MustExpire)]);
    x := Do(x3, Crash(0));
    assert Possible(cfg, x) && Reached(cfg, x) == Config(0, map[id := Entry(1, None)], map[]);
    NoStuckLock(cfg, x, id);
  }

  // ----- Run without interruption, the steps are the serial handler -----

  /** A handler that runs its GET, INCR and, if due, EXPIRE in one go does to the
      counters what the serial sign-in does. */
  lemma UninterruptedIsSerial(cfg: Settings, c: Config, pid: Pid)
    requires At(c, pid, Entering) && !Locked(cfg, c.failed, c.now, c.handlers[pid].id)
    ensures At(Next(cfg, c, Check(pid)), pid, Checked)
    ensures var d := Next(cfg, Next(cfg, c, Check(pid)), Wrong(pid));
      CountFailure(cfg, c.failed, c.now, c.handlers[pid].id) ==
        if At(d, pid, MustExpire) then Next(cfg, d, SetExpiry(pid)).failed else d.failed
    ensures Next(cfg, Next(cfg, c, Check(pid)), Right(pid)).failed == Delete(c.failed, c.handlers[pid].id)
  {
  }
}
