/** Both lockout bounds together: how many failures concurrent handlers fit
    into an interval as long as the lockout window, and runs that attain it. */
module LockoutSliding {
  import opened Wrappers
  import opened Redis
  import opened Auth
  import opened LockoutLaws
  import opened LockoutInterleaving

  /** When the counter of `id` was incremented. */
  ghost function Increments(cfg: Settings, x: Execution, id: string): seq<Time>
    requires Possible(cfg, x)
  {
    match x
    case Begin => []
    case Do(y, Wrong(pid)) =>
      Increments(cfg, y, id) + if Reached(cfg, y).handlers[pid].id == id then [Reached(cfg, y).now] else []
    case Do(y, _) => Increments(cfg, y, id)
  }

  ghost predicate NeverRight(cfg: Settings, x: Execution, id: string)
    requires Possible(cfg, x)
  {
    x.Do? ==>
      && NeverRight(cfg, x.before, id)
      && (x.action.Right? ==> Reached(cfg, x.before).handlers[x.action.pid].id != id)
  }

  // ----- The bound -----

  /** The counter that started at `start` lasts at least a span. If it started
      before the interval its first increment lies outside; if within, every
      earlier one started before the interval. */
  ghost predicate Tracked(cfg: Settings, c: Config, id: string, n: nat, start: Option<Time>, a: Time, bound: nat) {
    && (id in c.failed <==> start.Some?)
    && (c.now < a || start.None? ==> n == 0)
    && (start.Some? ==>
          var s, e := start.value, c.failed[id];
          && s <= c.now && 1 <= e.value <= bound
          && (e.expiry.Some? ==> s + Span(cfg) <= e.expiry.value)
          && n <= if s < a then e.value - 1 else if s < a + Span(cfg) then bound - 1 + e.value else 2 * bound - 1)
  }

  /** When the counter that `id` has after an action started. */
  function StartAfter(c: Config, act: Action, id: string, start: Option<Time>): Option<Time>
    requires Enabled(c, act)
  {
    if act.Wrong? && c.handlers[act.pid].id == id && !Exists(c.failed, c.now, id) then Some(c.now) else start
  }

  lemma WrongTracks(cfg: Settings, c: Config, pid: Pid, id: string, n: nat, start: Option<Time>, a: Time, bound: nat)
    requires Enabled(c, Wrong(pid)) && c.handlers[pid].id == id && Tracked(cfg, c, id, n, start, a, bound)
    requires 1 <= Count(Next(cfg, c, Wrong(pid)), id) <= bound
    ensures Tracked(cfg, Next(cfg, c, Wrong(pid)), id, n + if a <= c.now < a + Span(cfg) then 1 else 0,
                    StartAfter(c, Wrong(pid), id, start), a, bound)
  {
  }

  lemma OtherTracks(cfg: Settings, c: Config, act: Action, id: string, n: nat, start: Option<Time>, a: Time, bound: nat)
    requires Enabled(c, act) && Tracked(cfg, c, id, n, start, a, bound)
    requires (act.Wrong? || act.Right?) ==> c.handlers[act.pid].id != id
    ensures Tracked(cfg, Next(cfg, c, act), id, n, start, a, bound)
  {
  }

  lemma StepTracks(cfg: Settings, y: Execution, act: Action, id: string, start: Option<Time>, a: Time, bound: nat)
    requires Possible(cfg, Do(y, act)) && NeverRight(cfg, Do(y, act), id)
    requires 0 <= Count(Reached(cfg, Do(y, act)), id) <= bound
    requires Tracked(cfg, Reached(cfg, y), id, CountIn(Increments(cfg, y, id), a, Span(cfg)), start, a, bound)
    ensures Tracked(cfg, Reached(cfg, Do(y, act)), id, CountIn(Increments(cfg, Do(y, act), id), a, Span(cfg)),
                    StartAfter(Reached(cfg, y), act, id, start), a, bound)
  {
    var c, ts := Reached(cfg, y), Increments(cfg, y, id);
    if act.Wrong? && c.handlers[act.pid].id == id {
      WrongTracks(cfg, c, act.pid, id, CountIn(ts, a, Span(cfg)), start, a, bound);
      assert (ts + [c.now])[..|ts|] == ts;
    } else {
      OtherTracks(cfg, c, act, id, CountIn(ts, a, Span(cfg)), start, a, bound);
      assert ts + [] == ts;
    }
  }

  lemma {:induction false} AlwaysTracked(cfg: Settings, x: Execution, id: string, k: nat, a: Time) returns (start: Option<Time>)
    requires cfg.maxAttempts >= 1 && k >= 1
    requires Possible(cfg, x) && NeverRight(cfg, x, id) && AtMostPending(cfg, x, id, k)
    ensures Tracked(cfg, Reached(cfg, x), id, CountIn(Increments(cfg, x, id), a, Span(cfg)), start, a, cfg.maxAttempts - 1 + k)
  {
    match x
    case Begin => start := None;
    case Do(y, act) =>
      var s := AlwaysTracked(cfg, y, id, k, a);
      ConcurrentLockoutBound(cfg, x, id, k);
      StepTracks(cfg, y, act, id, s, a, cfg.maxAttempts - 1 + k);
      start := StartAfter(Reached(cfg, y), act, id, s);
  }

  /** Under every interleaving without a correct password for `id` in which at
      most `k` of its requests are ever between the check and their outcome,
      every half-open interval as long as the lockout window holds at most
      `2 * (MAX_LOGIN_ATTEMPTS - 1 + k) - 1` increments, crashes included. With
      one request at a time this is the bound of serial runs. */
  lemma ConcurrentSlidingBound(cfg: Settings, x: Execution, id: string, k: nat, a: Time)
    requires cfg.maxAttempts >= 1 && k >= 1
    requires Possible(cfg, x) && NeverRight(cfg, x, id) && AtMostPending(cfg, x, id, k)
    ensures CountIn(Increments(cfg, x, id), a, Span(cfg)) <= 2 * (cfg.maxAttempts - 1 + k) - 1
  {
    var start := AlwaysTracked(cfg, x, id, k, a);
  }

  // ----- Both bounds are attained -----

  /** A run of failures for one identifier: handlers below `mid` have failed,
      those from `mid` to `upto` are past the check; the counter ends at `end`. */
  datatype Front = Front(now: Time, count: nat, ts: seq<Time>, mid: Pid, upto: Pid, end: Option<Time>)

  ghost predicate Queued(c: Config, id: string, mid: Pid, upto: Pid) {
    && mid <= upto
    && (forall pid: Pid :: pid in c.handlers <==> pid < upto)
    && (forall pid: Pid :: mid <= pid < upto ==> c.handlers[pid] == Handler(id, Checked))
    && (forall pid: Pid :: pid < mid ==> c.handlers[pid].stage != Checked)
  }

  ghost predicate Counted(c: Config, id: string, f: Front) {
    && c.now == f.now && Queued(c, id, f.mid, f.upto)
    && (if f.count == 0 then !Exists(c.failed, c.now, id)
        else Exists(c.failed, c.now, id) && c.failed[id] == Entry(f.count, f.end))
  }

  ghost predicate Holds(cfg: Settings, x: Execution, id: string, k: nat, f: Front) {
    && Possible(cfg, x) && AtMostPending(cfg, x, id, k) && NeverRight(cfg, x, id)
    && Increments(cfg, x, id) == f.ts
    && Counted(Reached(cfg, x), id, f)
  }

  function Range(mid: Pid, upto: Pid): (r: set<Pid>)
    requires mid <= upto
    ensures |r| == upto - mid
    ensures forall pid: Pid :: pid in r <==> mid <= pid < upto
    decreases upto
  {
    if mid == upto then {} else Range(mid, upto - 1) + {upto - 1}
  }

  lemma PendingRange(c: Config, id: string, mid: Pid, upto: Pid)
    requires Queued(c, id, mid, upto)
    ensures |Pending(c, id)| == upto - mid
  {
    assert Pending(c, id) == Range(mid, upto);
  }

  lemma Enters(cfg: Settings, x: Execution, id: string, k: nat, f: Front) returns (y: Execution)
    requires Holds(cfg, x, id, k, f) && f.count < cfg.maxAttempts && f.upto - f.mid < k
    ensures Holds(cfg, y, id, k, f.(upto := f.upto + 1))
  {
    var c := Reached(cfg, x);
    PendingRange(c, id, f.mid, f.upto);
    var arrived := Do(x, Arrive(f.upto, id));
    assert Possible(cfg, arrived) && Reached(cfg, arrived) == c.(handlers := c.handlers[f.upto := Handler(id, Entering)]);
    PendingMoves(cfg, c, Arrive(f.upto, id), id);
    y := Do(arrived, Check(f.upto));
    assert Possible(cfg, y) && Reached(cfg, y) == c.(handlers := c.handlers[f.upto := Handler(id, Checked)]);
    PendingRange(Reached(cfg, y), id, f.mid, f.upto + 1);
  }

  lemma {:induction false} EntersMany(cfg: Settings, x: Execution, id: string, k: nat, f: Front, n: nat) returns (y: Execution)
    requires Holds(cfg, x, id, k, f) && f.count < cfg.maxAttempts && f.upto - f.mid + n <= k
    ensures Holds(cfg, y, id, k, f.(upto := f.upto + n))
  {
    y := x;
    if n > 0 {
      y := EntersMany(cfg, x, id, k, f, n - 1);
      y := Enters(cfg, y, id, k, f.(upto := f.upto + n - 1));
    }
  }

  function Failed(f: Front, n: nat): Front {
    f.(count := f.count + n, ts := f.ts + Repeat(f.now, n), mid := f.mid + n,
       end := if f.count == 0 && n > 0 then None else f.end)
  }

  lemma Fails(cfg: Settings, x: Execution, id: string, k: nat, f: Front) returns (y: Execution)
    requires Holds(cfg, x, id, k, f) && f.mid < f.upto
    ensures Holds(cfg, y, id, k, Failed(f, 1)) && y == Do(x, Wrong(f.mid))
    ensures f.count == 0 ==> Due(Reached(cfg, y), f.mid, id)
  {
    y := Do(x, Wrong(f.mid));
    PendingRange(Reached(cfg, x), id, f.mid, f.upto);
    assert Possible(cfg, y);
    PendingRange(Reached(cfg, y), id, f.mid + 1, f.upto);
    assert Repeat(f.now, 1) == [f.now];
  }

  /** The first failure of a window, with its EXPIRE. */
  lemma Opens(cfg: Settings, x: Execution, id: string, k: nat, f: Front) returns (y: Execution)
    requires Holds(cfg, x, id, k, f) && f.count == 0 && f.mid < f.upto && Positive(cfg)
    ensures Holds(cfg, y, id, k, Failed(f, 1).(end := Some(f.now + Span(cfg))))
  {
    var wrong := Fails(cfg, x, id, k, f);
    PendingRange(Reached(cfg, wrong), id, f.mid + 1, f.upto);
    y := Do(wrong, SetExpiry(f.mid));
    assert Possible(cfg, y);
    PendingRange(Reached(cfg, y), id, f.mid + 1, f.upto);
  }

  predicate Lasts(f: Front, d: nat) { f.end.None? || f.now + d < f.end.value }

  lemma Waits(cfg: Settings, x: Execution, id: string, k: nat, f: Front, d: nat)
    requires Holds(cfg, x, id, k, f)
    ensures Holds(cfg, Do(x, Pass(d)), id, k, f.(now := f.now + d, count := if Lasts(f, d) then f.count else 0))
  {
    PendingMoves(cfg, Reached(cfg, x), Pass(d), id);
  }

  lemma {:induction false} FailsMany(cfg: Settings, x: Execution, id: string, k: nat, f: Front, n: nat) returns (y: Execution)
    requires Holds(cfg, x, id, k, f) && f.count > 0 && f.mid + n <= f.upto
    ensures Holds(cfg, y, id, k, Failed(f, n))
  {
    y := x;
    if n == 0 {
      assert Failed(f, 0) == f;
    } else {
      y := FailsMany(cfg, x, id, k, f, n - 1);
      y := Fails(cfg, y, id, k, Failed(f, n - 1));
      FailedMore(f, n - 1, 1);
    }
  }

  lemma FailedMore(f: Front, m: nat, n: nat)
    ensures Failed(Failed(f, m), n) == Failed(f, m + n)
  {
    assert Repeat(f.now, m + n) == Repeat(f.now, m) + Repeat(f.now, n);
  }

  function Cycled(f: Front, n: nat): Front { Failed(f, n).(upto := f.upto + n) }

  lemma CycledMore(f: Front, n: nat)
    requires f.count > 0
    ensures Cycled(f, 0) == f && Cycled(Cycled(f, n), 1) == Cycled(f, n + 1)
  {
    FailedMore(f, n, 1);
    assert Failed(f, 0) == f;
  }

  lemma Cycle(cfg: Settings, x: Execution, id: string, k: nat, f: Front) returns (y: Execution)
    requires Holds(cfg, x, id, k, f) && f.count < cfg.maxAttempts && f.upto - f.mid < k
    ensures Holds(cfg, y, id, k, Cycled(f, 1))
  {
    y := Enters(cfg, x, id, k, f);
    y := Fails(cfg, y, id, k, f.(upto := f.upto + 1));
  }

  /** `n` times, one more request passes the check and one fails. */
  lemma {:induction false} Cycles(cfg: Settings, x: Execution, id: string, k: nat, f: Front, n: nat) returns (y: Execution)
    requires Holds(cfg, x, id, k, f) && f.count > 0 && f.count + n <= cfg.maxAttempts && f.upto - f.mid < k
    ensures Holds(cfg, y, id, k, Cycled(f, n))
  {
    y := x;
    CycledMore(f, 0);
    if n > 0 {
      y := Cycles(cfg, x, id, k, f, n - 1);
      y := Cycle(cfg, y, id, k, Cycled(f, n - 1));
      CycledMore(f, n - 1);
    }
  }

  /** From a window with one failure and `k - 1` requests past the check to a
      counter of `MAX_LOGIN_ATTEMPTS - 1 + k`. */
  lemma Fills(cfg: Settings, x: Execution, id: string, k: nat, f: Front) returns (y: Execution, g: Front)
    requires Holds(cfg, x, id, k, f) && f.count == 1 <= cfg.maxAttempts && f.upto - f.mid == k - 1
    ensures Holds(cfg, y, id, k, g) && g == Failed(f, cfg.maxAttempts - 2 + k).(upto := g.mid)
  {
    var m := cfg.maxAttempts - 1;
    y := Cycles(cfg, x, id, k, f, m);
    g := Cycled(f, m);
    y := FailsMany(cfg, y, id, k, g, k - 1);
    FailedMore(f, m, k - 1);
    g := Failed(g, k - 1);
  }

  lemma Floods(cfg: Settings, x: Execution, id: string, k: nat, f: Front) returns (y: Execution, g: Front)
    requires Holds(cfg, x, id, k, f) && f.count == 0 && f.upto == f.mid
    requires cfg.maxAttempts >= 1 && k >= 1 && Positive(cfg)
    ensures Holds(cfg, y, id, k, g) && g == Failed(f, 1).(upto := f.upto + k, end := Some(f.now + Span(cfg)))
  {
    y := EntersMany(cfg, x, id, k, f, k);
    y := Opens(cfg, y, id, k, f.(upto := f.upto + k));
    g := Failed(f, 1).(upto := f.upto + k, end := Some(f.now + Span(cfg)));
  }

  lemma NobodyYet(cfg: Settings, id: string, k: nat) returns (f: Front)
    ensures Holds(cfg, Begin, id, k, f) && f == Front(0, 0, [], 0, 0, None)
  {
    f := Front(0, 0, [], 0, 0, None);
    assert Possible(cfg, Begin) && Reached(cfg, Begin) == Idle() && Pending(Idle(), id) == {};
  }

  /** With `k` requests let past the check together, the counter does reach
      `MAX_LOGIN_ATTEMPTS - 1 + k`. */
  lemma ConcurrentBoundIsTight(cfg: Settings, id: string, k: nat) returns (x: Execution)
    requires cfg.maxAttempts >= 1 && k >= 1
    ensures Possible(cfg, x) && AtMostPending(cfg, x, id, k)
    ensures Count(Reached(cfg, x), id) == cfg.maxAttempts - 1 + k
  {
    var f := NobodyYet(cfg, id, k);
    x := EntersMany(cfg, Begin, id, k, f, k);
    x := Fails(cfg, x, id, k, f.(upto := k));
    x, f := Fills(cfg, x, id, k, Failed(f.(upto := k), 1));
  }

  lemma FirstFlood(cfg: Settings, id: string, k: nat, t: Time) returns (x: Execution, f: Front)
    requires cfg.maxAttempts >= 1 && k >= 1 && Positive(cfg) && t < Span(cfg)
    ensures Holds(cfg, x, id, k, f) && f.upto == f.mid && f.now == t && f.end == Some(Span(cfg))
    ensures f.count == cfg.maxAttempts - 1 + k && f.ts == [0] + Repeat(t, cfg.maxAttempts - 2 + k)
  {
    f := NobodyYet(cfg, id, k);
    x, f := Floods(cfg, Begin, id, k, f);
    assert f.ts == [0];
    Waits(cfg, x, id, k, f, t);
    x, f := Fills(cfg, Do(x, Pass(t)), id, k, f.(now := t));
  }

  /** And an interval does hold `2 * (MAX_LOGIN_ATTEMPTS - 1 + k) - 1` increments. */
  lemma ConcurrentSlidingBoundIsTight(cfg: Settings, id: string, k: nat) returns (x: Execution, a: Time)
    requires cfg.maxAttempts >= 1 && k >= 1 && Positive(cfg)
    ensures Possible(cfg, x) && NeverRight(cfg, x, id) && AtMostPending(cfg, x, id, k)
    ensures CountIn(Increments(cfg, x, id), a, Span(cfg)) == 2 * (cfg.maxAttempts - 1 + k) - 1
  {
    var span, bound := Span(cfg), cfg.maxAttempts - 1 + k;
    a := span - 1;
    var f, g;
    x, f := FirstFlood(cfg, id, k, a);
    Waits(cfg, x, id, k, f, 1);
    x, g := Floods(cfg, Do(x, Pass(1)), id, k, f.(now := span, count := 0));
    x, g := Fills(cfg, x, id, k, g);
    assert Repeat(span, bound) == Repeat(span, 1) + Repeat(span, bound - 1);
    assert Increments(cfg, x, id) == [0] + Repeat(a, bound - 1) + Repeat(span, bound);
    TightCount(span, bound);
  }

  /** The promise of the login endpoint for `id` while at most `k` requests are past the check. */
  ghost predicate ConcurrentPromiseKept(cfg: Settings, id: string, k: nat) {
    forall x, a :: Possible(cfg, x) && NeverRight(cfg, x, id) && AtMostPending(cfg, x, id, k) ==>
      CountIn(Increments(cfg, x, id), a, Span(cfg)) <= cfg.maxAttempts
  }

  /** It is kept exactly when the limit is one and requests come one at a time. */
  lemma ConcurrentPromiseKeptExactly(cfg: Settings, id: string, k: nat)
    requires cfg.maxAttempts >= 1 && k >= 1 && Positive(cfg)
    ensures ConcurrentPromiseKept(cfg, id, k) <==> cfg.maxAttempts == 1 && k == 1
  {
    if cfg.maxAttempts == 1 && k == 1 {
      forall x, a | Possible(cfg, x) && NeverRight(cfg, x, id) && AtMostPending(cfg, x, id, k)
        ensures CountIn(Increments(cfg, x, id), a, Span(cfg)) <= cfg.maxAttempts
      {
        ConcurrentSlidingBound(cfg, x, id, k, a);
      }
    } else {
      var x, a := ConcurrentSlidingBoundIsTight(cfg, id, k);
    }
  }
}
