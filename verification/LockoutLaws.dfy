/** The lockout counter against a log of failed attempts, in serial runs. */
module LockoutLaws {
  import opened Wrappers
  import opened Redis
  import opened Auth
  import opened Runs

  function Span(cfg: Settings): nat { cfg.lockoutWindow * TICKS_PER_SECOND }

  predicate Failure(r: Record, id: string) {
    r.event.LoginRequest? && r.event.email == id && r.reply.AttemptFailed?
  }

  /** The password was right, whether or not the email was verified. */
  predicate Correct(r: Record, id: string) {
    r.event.LoginRequest? && r.event.email == id && (r.reply.SignedIn? || r.reply.EmailNotVerified?)
  }

  /** The times of the failures counted for `id` since its last correct password. */
  function Failures(log: seq<Record>, id: string): seq<Time> {
    if log == [] then []
    else
      var r := log[|log| - 1];
      var before := Failures(log[..|log| - 1], id);
      if Correct(r, id) then [] else if Failure(r, id) then before + [r.at] else before
  }

  /** The failures of the latest window: a window opens at a failure outside
      the previous one and is never extended. */
  function Window(span: nat, ts: seq<Time>): (w: seq<Time>)
    ensures |w| <= |ts|
    ensures ts != [] ==> w != []
  {
    if ts == [] then []
    else
      var w := Window(span, ts[..|ts| - 1]);
      var t := ts[|ts| - 1];
      if w != [] && t < w[0] + span then w + [t] else [t]
  }

  /** What the log alone says about a request at `now`. */
  predicate Barred(max: nat, span: nat, ts: seq<Time>, now: Time) {
    var w := Window(span, ts);
    w != [] && |w| >= max && now < w[0] + span
  }

  // ----- The counter is the current window -----

  predicate Counts(failed: map<string, Entry<int>>, id: string, w: seq<Time>, span: nat) {
    if w == [] then id !in failed
    else id in failed && failed[id] == Entry(|w|, Some(w[0] + span))
  }

  lemma WindowAppend(span: nat, ts: seq<Time>, t: Time)
    ensures var w := Window(span, ts);
      Window(span, ts + [t]) == if w != [] && t < w[0] + span then w + [t] else [t]
  {
    assert (ts + [t])[..|ts|] == ts;
  }

  lemma CountFailureEntry(cfg: Settings, failed: map<string, Entry<int>>, now: Time, id: string)
    requires Positive(cfg) && (id in failed ==> failed[id].value >= 1)
    ensures CountFailure(cfg, failed, now, id) ==
      failed[id := if Exists(failed, now, id) then Entry(failed[id].value + 1, failed[id].expiry)
                   else Entry(1, Some(now + Span(cfg)))]
  {
  }

  lemma CountFailureExtends(cfg: Settings, failed: map<string, Entry<int>>, now: Time, id: string, ts: seq<Time>)
    requires Positive(cfg) && Counts(failed, id, Window(Span(cfg), ts), Span(cfg))
    ensures Counts(CountFailure(cfg, failed, now, id), id, Window(Span(cfg), ts + [now]), Span(cfg))
  {
    WindowAppend(Span(cfg), ts, now);
    CountFailureEntry(cfg, failed, now, id);
  }

  lemma CallbackCountsNothing(cfg: Settings, s: State, state: string, answer: Option<GoogleInfo>, id: UserId, m: Mint)
    ensures GoogleCallback(cfg, s, state, answer, id, m).0.redis.failed == s.redis.failed
  {
  }

  lemma OnlyLoginsCount(cfg: Settings, s: State, e: Event)
    requires !e.LoginRequest?
    ensures Step(cfg, s, e).0.redis.failed == s.redis.failed
  {
    match e
    case CallbackRequest(state, answer, id, m) => CallbackCountsNothing(cfg, s, state, answer, id, m);
    case _ =>
  }

  /** The failures of `id` after a login request at `now` with this reply. */
  function Tally(e: Event, r: Reply, now: Time, id: string, ts: seq<Time>): seq<Time> {
    if Correct(Record(now, e, r), id) then [] else if Failure(Record(now, e, r), id) then ts + [now] else ts
  }

  lemma CountFailureLocal(cfg: Settings, failed: map<string, Entry<int>>, now: Time, id: string, other: string)
    requires other != id
    ensures var m := CountFailure(cfg, failed, now, id);
      (other in m <==> other in failed) && (other in failed ==> m[other] == failed[other])
  {
  }

  lemma LoginCounters(cfg: Settings, s: State, email: string, password: string, m: Mint)
    ensures SignIn(cfg, s, email, password, m).0.redis.failed in
      {s.redis.failed, CountFailure(cfg, s.redis.failed, s.now, email), Delete(s.redis.failed, email)}
  {
  }

  lemma OtherLoginCounts(cfg: Settings, s: State, email: string, password: string, m: Mint, id: string)
    requires email != id
    ensures var t := SignIn(cfg, s, email, password, m).0;
      && (id in t.redis.failed <==> id in s.redis.failed)
      && (id in s.redis.failed ==> t.redis.failed[id] == s.redis.failed[id])
  {
    LoginCounters(cfg, s, email, password, m);
    CountFailureLocal(cfg, s.redis.failed, s.now, email, id);
  }

  lemma LoginCounts(cfg: Settings, s: State, email: string, password: string, m: Mint, id: string, ts: seq<Time>)
    requires Positive(cfg) && Counts(s.redis.failed, id, Window(Span(cfg), ts), Span(cfg))
    ensures var (t, r) := SignIn(cfg, s, email, password, m);
      Counts(t.redis.failed, id, Window(Span(cfg), Tally(LoginRequest(email, password, m), r, s.now, id, ts)), Span(cfg))
  {
    if email == id {
      CountFailureExtends(cfg, s.redis.failed, s.now, id, ts);
    } else {
      OtherLoginCounts(cfg, s, email, password, m, id);
    }
  }

  lemma LogStep(cfg: Settings, g: History, e: Event, id: string)
    ensures var s := After(cfg, g);
      Failures(Log(cfg, Then(g, e)), id) == Tally(e, Step(cfg, s, e).1, s.now, id, Failures(Log(cfg, g), id))
  {
    var log := Log(cfg, Then(g, e));
    assert log[..|log| - 1] == Log(cfg, g);
  }

  lemma {:induction false} CounterIsWindow(cfg: Settings, h: History, id: string)
    requires Positive(cfg)
    ensures Counts(After(cfg, h).redis.failed, id, Window(Span(cfg), Failures(Log(cfg, h), id)), Span(cfg))
  {
    match h
    case Start =>
    case Then(g, e) =>
      CounterIsWindow(cfg, g, id);
      LogStep(cfg, g, e, id);
      match e {
        case LoginRequest(email, password, m) =>
          LoginCounts(cfg, After(cfg, g), email, password, m, id, Failures(Log(cfg, g), id));
        case _ => OnlyLoginsCount(cfg, After(cfg, g), e);
      }
  }

  /** `check_lockout` raises exactly when the log of failures says so. */
  lemma LockoutRefinesLog(cfg: Settings, h: History, id: string)
    requires Positive(cfg)
    ensures Locked(cfg, After(cfg, h).redis.failed, After(cfg, h).now, id)
      <==> Barred(cfg.maxAttempts, Span(cfg), Failures(Log(cfg, h), id), After(cfg, h).now)
  {
    CounterIsWindow(cfg, h, id);
  }

  /** A failed attempt reports a locked account exactly when the next check would refuse. */
  lemma LockIsAnnounced(cfg: Settings, s: State, id: string)
    requires Positive(cfg)
    ensures var (t, r) := FailedAttempt(cfg, s, id);
      r.locks <==> Locked(cfg, t.redis.failed, t.now, id)
  {
  }

  // ----- How many failures fit into a sliding interval -----

  /** How many of the times lie in the half-open interval from `a` of length `span`. */
  function CountIn(ts: seq<Time>, a: Time, span: nat): (n: nat)
    ensures n <= |ts|
  {
    if ts == [] then 0
    else CountIn(ts[..|ts| - 1], a, span) + if a <= ts[|ts| - 1] < a + span then 1 else 0
  }

  /** Times in order, each one admitted by the check before it. */
  predicate Gated(max: nat, span: nat, ts: seq<Time>) {
    ts != [] ==>
      var before := ts[..|ts| - 1];
      && Gated(max, span, before)
      && !Barred(max, span, before, ts[|ts| - 1])
      && (before != [] ==> before[|before| - 1] <= ts[|ts| - 1])
  }

  lemma {:induction false} CountInAppend(x: seq<Time>, y: seq<Time>, a: Time, span: nat)
    ensures CountIn(x + y, a, span) == CountIn(x, a, span) + CountIn(y, a, span)
  {
    if y == [] {
      assert x + y == x;
    } else {
      CountInAppend(x, y[..|y| - 1], a, span);
      assert (x + y)[..|x + y| - 1] == x + y[..|y| - 1];
    }
  }

  lemma {:induction false} CountInNone(ts: seq<Time>, a: Time, span: nat)
    requires forall i :: 0 <= i < |ts| ==> !(a <= ts[i] < a + span)
    ensures CountIn(ts, a, span) == 0
  {
    if ts != [] {
      CountInNone(ts[..|ts| - 1], a, span);
    }
  }

  lemma {:induction false} GatedSorted(max: nat, span: nat, ts: seq<Time>)
    requires Gated(max, span, ts)
    ensures forall i, j :: 0 <= i <= j < |ts| ==> ts[i] <= ts[j]
  {
    if ts != [] {
      GatedSorted(max, span, ts[..|ts| - 1]);
    }
  }

  lemma {:induction false} WindowBounded(max: nat, span: nat, ts: seq<Time>)
    requires max >= 1 && Gated(max, span, ts)
    ensures |Window(span, ts)| <= max
  {
    if ts != [] {
      WindowBounded(max, span, ts[..|ts| - 1]);
    }
  }

  lemma {:induction false} WindowIsSuffix(span: nat, ts: seq<Time>)
    ensures ts == ts[..|ts| - |Window(span, ts)|] + Window(span, ts)
  {
    if ts != [] {
      WindowIsSuffix(span, ts[..|ts| - 1]);
    }
  }

  lemma CountAroundWindow(span: nat, ts: seq<Time>, a: Time)
    ensures var w := Window(span, ts); var pre := ts[..|ts| - |w|];
      CountIn(ts, a, span) == CountIn(pre, a, span) + CountIn(w, a, span)
  {
    var w := Window(span, ts);
    WindowIsSuffix(span, ts);
    CountInAppend(ts[..|ts| - |w|], w, a, span);
  }

  /** What precedes a window was itself admitted, and ended a span earlier. */
  lemma {:induction false} BeforeWindow(max: nat, span: nat, ts: seq<Time>)
    requires Gated(max, span, ts) && ts != []
    ensures var w := Window(span, ts); var pre := ts[..|ts| - |w|];
      Gated(max, span, pre) && (pre != [] ==> Window(span, pre)[0] + span <= w[0])
  {
    var before := ts[..|ts| - 1];
    var w := Window(span, ts);
    if |w| > 1 {
      BeforeWindow(max, span, before);
      assert before[..|before| - |Window(span, before)|] == ts[..|ts| - |w|];
    } else {
      assert ts[..|ts| - |w|] == before;
    }
  }

  lemma {:induction false} WindowStartsLow(max: nat, span: nat, ts: seq<Time>)
    requires Gated(max, span, ts)
    ensures var w := Window(span, ts);
      && (w != [] ==> w[|w| - 1] == ts[|ts| - 1])
      && forall i :: 0 <= i < |w| ==> w[0] <= w[i]
  {
    if ts != [] {
      WindowStartsLow(max, span, ts[..|ts| - 1]);
    }
  }

  lemma LateWindowMisses(max: nat, span: nat, ts: seq<Time>, a: Time)
    requires Gated(max, span, ts) && ts != [] && a + span <= Window(span, ts)[0]
    ensures CountIn(Window(span, ts), a, span) == 0
  {
    WindowStartsLow(max, span, ts);
    CountInNone(Window(span, ts), a, span);
  }

  /** A window that starts after the interval adds nothing to it. */
  lemma LateWindowCount(max: nat, span: nat, ts: seq<Time>, a: Time) returns (pre: seq<Time>)
    requires Gated(max, span, ts) && ts != [] && a + span <= Window(span, ts)[0]
    ensures Gated(max, span, pre) && |pre| < |ts| && CountIn(ts, a, span) == CountIn(pre, a, span)
  {
    pre := ts[..|ts| - |Window(span, ts)|];
    CountAroundWindow(span, ts, a);
    BeforeWindow(max, span, ts);
    LateWindowMisses(max, span, ts, a);
  }

  lemma TwoWindowsCount(max: nat, span: nat, ts: seq<Time>, a: Time)
    requires max >= 1 && Gated(max, span, ts) && ts != [] && Window(span, ts)[0] < a + span
    ensures CountIn(ts, a, span) <= 2 * max - 1
  {
    var w := Window(span, ts);
    var pre := ts[..|ts| - |w|];
    CountAroundWindow(span, ts, a);
    WindowBounded(max, span, ts);
    BeforeWindow(max, span, ts);
    if pre != [] {
      PreviousWindowCount(max, span, pre, a);
    }
  }

  lemma {:induction false} GatedCount(max: nat, span: nat, ts: seq<Time>, a: Time)
    requires max >= 1 && span >= 1 && Gated(max, span, ts)
    ensures CountIn(ts, a, span) <= 2 * max - 1
    decreases |ts|
  {
    if ts != [] {
      if Window(span, ts)[0] < a + span {
        TwoWindowsCount(max, span, ts, a);
      } else {
        var pre := LateWindowCount(max, span, ts, a);
        GatedCount(max, span, pre, a);
      }
    }
  }

  lemma {:induction false} CountInMissesFirst(ts: seq<Time>, a: Time, span: nat)
    requires ts != [] && ts[0] < a
    ensures CountIn(ts, a, span) <= |ts| - 1
  {
    if |ts| > 1 {
      CountInMissesFirst(ts[..|ts| - 1], a, span);
    }
  }

  lemma {:induction false} BeforeWindowLow(max: nat, span: nat, ts: seq<Time>)
    requires Gated(max, span, ts)
    ensures var w := Window(span, ts); forall i :: 0 <= i < |ts| - |w| ==> ts[i] <= w[0]
  {
    if ts != [] {
      BeforeWindowLow(max, span, ts[..|ts| - 1]);
      GatedSorted(max, span, ts);
    }
  }

  /** An interval that starts after a window opened misses at least its first failure. */
  lemma PreviousWindowCount(max: nat, span: nat, ts: seq<Time>, a: Time)
    requires max >= 1 && Gated(max, span, ts) && ts != [] && Window(span, ts)[0] < a
    ensures CountIn(ts, a, span) <= max - 1
  {
    var w := Window(span, ts);
    var pre := ts[..|ts| - |w|];
    CountAroundWindow(span, ts, a);
    WindowBounded(max, span, ts);
    CountInMissesFirst(w, a, span);
    BeforeWindowLow(max, span, ts);
    CountInNone(pre, a, span);
  }

  // ----- The same for runs of the service -----

  /** Every failure ever counted for `id`. */
  function AllFailures(log: seq<Record>, id: string): seq<Time> {
    if log == [] then []
    else
      var before := AllFailures(log[..|log| - 1], id);
      if Failure(log[|log| - 1], id) then before + [log[|log| - 1].at] else before
  }

  lemma {:induction false} NothingCleared(log: seq<Record>, id: string)
    requires forall i :: 0 <= i < |log| ==> !Correct(log[i], id)
    ensures Failures(log, id) == AllFailures(log, id)
  {
    if log != [] {
      NothingCleared(log[..|log| - 1], id);
    }
  }

  lemma ClockMovesOn(cfg: Settings, s: State, e: Event)
    ensures s.now <= Step(cfg, s, e).0.now
  {
  }

  lemma FailureWasAdmitted(cfg: Settings, s: State, e: Event, id: string)
    requires Failure(Record(s.now, e, Step(cfg, s, e).1), id)
    ensures !Locked(cfg, s.redis.failed, s.now, id)
  {
  }

  lemma GatedAppend(max: nat, span: nat, ts: seq<Time>, t: Time)
    requires Gated(max, span, ts) && !Barred(max, span, ts, t) && (ts != [] ==> ts[|ts| - 1] <= t)
    ensures Gated(max, span, ts + [t])
  {
    assert (ts + [t])[..|ts|] == ts;
  }

  /** Admitted failures in time order, none after `now`. */
  predicate GatedUntil(cfg: Settings, ts: seq<Time>, now: Time) {
    Gated(cfg.maxAttempts, Span(cfg), ts) && (ts != [] ==> ts[|ts| - 1] <= now)
  }

  lemma StepGated(cfg: Settings, s: State, e: Event, id: string, ts: seq<Time>)
    requires GatedUntil(cfg, ts, s.now)
    requires Locked(cfg, s.redis.failed, s.now, id) <==> Barred(cfg.maxAttempts, Span(cfg), ts, s.now)
    ensures var (t, r) := Step(cfg, s, e); GatedUntil(cfg, Tally(e, r, s.now, id, ts), t.now)
  {
    var (t, r) := Step(cfg, s, e);
    ClockMovesOn(cfg, s, e);
    if Failure(Record(s.now, e, r), id) {
      FailureWasAdmitted(cfg, s, e, id);
      GatedAppend(cfg.maxAttempts, Span(cfg), ts, s.now);
    }
  }

  lemma {:induction false} FailuresAreGated(cfg: Settings, h: History, id: string)
    requires Positive(cfg)
    ensures GatedUntil(cfg, Failures(Log(cfg, h), id), After(cfg, h).now)
  {
    match h
    case Start =>
    case Then(g, e) =>
      FailuresAreGated(cfg, g, id);
      LockoutRefinesLog(cfg, g, id);
      StepGated(cfg, After(cfg, g), e, id, Failures(Log(cfg, g), id));
      LogStep(cfg, g, e, id);
  }

  /** In a run without a correct password for `id`, every half-open interval as
      long as the lockout window holds at most `2 * MAX_LOGIN_ATTEMPTS - 1`
      counted failures of `id`. */
  lemma SlidingWindowBound(cfg: Settings, h: History, id: string, a: Time)
    requires Positive(cfg) && cfg.maxAttempts >= 1
    requires forall i :: 0 <= i < |Log(cfg, h)| ==> !Correct(Log(cfg, h)[i], id)
    ensures CountIn(AllFailures(Log(cfg, h), id), a, Span(cfg)) <= 2 * cfg.maxAttempts - 1
  {
    NothingCleared(Log(cfg, h), id);
    FailuresAreGated(cfg, h, id);
    GatedCount(cfg.maxAttempts, Span(cfg), Failures(Log(cfg, h), id), a);
  }

  // ----- The bound is attained -----

  const PROBE := Mint("a", "b", "c", "d")

  /** A failed attempt on an address nobody registered. */
  function Attempt(h: History, id: string): History { Then(h, LoginRequest(id, "", PROBE)) }

  /** A run in which nobody has an account and every recorded failure of `id` is in `ts`. */
  ghost predicate Probed(cfg: Settings, h: History, id: string, now: Time, ts: seq<Time>) {
    var s := After(cfg, h);
    && Valid(cfg, h) && s.now == now && s.db.users == map[] && s.signed == map[]
    && (forall i :: 0 <= i < |Log(cfg, h)| ==> !Correct(Log(cfg, h)[i], id))
    && AllFailures(Log(cfg, h), id) == ts
  }

  lemma AttemptFails(cfg: Settings, s: State, id: string)
    requires s.db.users == map[] && !Locked(cfg, s.redis.failed, s.now, id)
    ensures SignIn(cfg, s, id, "", PROBE) == FailedAttempt(cfg, s, id)
  {
  }

  lemma OneMore(cfg: Settings, h: History, id: string, now: Time, ts: seq<Time>)
    requires Positive(cfg) && Probed(cfg, h, id, now, ts)
    requires !Barred(cfg.maxAttempts, Span(cfg), ts, now)
    ensures Probed(cfg, Attempt(h, id), id, now, ts + [now])
  {
    var log := Log(cfg, Attempt(h, id));
    NothingCleared(Log(cfg, h), id);
    LockoutRefinesLog(cfg, h, id);
    AttemptFails(cfg, After(cfg, h), id);
    assert log[..|log| - 1] == Log(cfg, h);
  }

  lemma Wait(cfg: Settings, h: History, id: string, now: Time, ts: seq<Time>, d: nat)
    requires Probed(cfg, h, id, now, ts)
    ensures Probed(cfg, Then(h, Tick(d)), id, now + d, ts)
  {
    var log := Log(cfg, Then(h, Tick(d)));
    assert log[..|log| - 1] == Log(cfg, h);
  }

  function Repeat(t: Time, n: nat): (r: seq<Time>) { seq(n, _ => t) }

  lemma RepeatMore(ts: seq<Time>, now: Time, n: nat)
    ensures ts + Repeat(now, n + 1) == ts + Repeat(now, n) + [now] && Repeat(now, n + 1) == Repeat(now, n) + [now]
  {
    assert Repeat(now, n + 1) == Repeat(now, n) + [now];
  }

  lemma OneMoreRepeat(cfg: Settings, h: History, id: string, now: Time, ts: seq<Time>, n: nat)
    requires Positive(cfg) && Probed(cfg, h, id, now, ts + Repeat(now, n))
    requires !Barred(cfg.maxAttempts, Span(cfg), ts + Repeat(now, n), now)
    ensures Probed(cfg, Attempt(h, id), id, now, ts + Repeat(now, n + 1))
  {
    OneMore(cfg, h, id, now, ts + Repeat(now, n));
    RepeatMore(ts, now, n);
  }

  /** As many attempts at one instant as its window still admits. */
  lemma {:induction false} Burst(cfg: Settings, h: History, id: string, now: Time, ts: seq<Time>, n: nat) returns (h': History)
    requires Positive(cfg) && Probed(cfg, h, id, now, ts)
    requires forall k :: 0 <= k < n ==> !Barred(cfg.maxAttempts, Span(cfg), ts + Repeat(now, k), now)
    ensures Probed(cfg, h', id, now, ts + Repeat(now, n))
  {
    if n == 0 {
      h' := h;
      assert ts + Repeat(now, 0) == ts;
    } else {
      var g := Burst(cfg, h, id, now, ts, n - 1);
      OneMoreRepeat(cfg, g, id, now, ts, n - 1);
      h' := Attempt(g, id);
    }
  }

  /** A window that stays open takes every further failure. */
  lemma {:induction false} WindowRepeat(span: nat, ts: seq<Time>, now: Time, k: nat)
    requires span >= 1
    ensures var w := Window(span, ts);
      Window(span, ts + Repeat(now, k)) ==
        if w != [] && now < w[0] + span then w + Repeat(now, k)
        else if k == 0 then w else Repeat(now, k)
  {
    if k == 0 {
      assert ts + Repeat(now, 0) == ts && Window(span, ts) + Repeat(now, 0) == Window(span, ts);
    } else {
      WindowRepeat(span, ts, now, k - 1);
      WindowAppend(span, ts + Repeat(now, k - 1), now);
      RepeatMore(ts, now, k - 1);
      RepeatMore(Window(span, ts), now, k - 1);
    }
  }

  lemma {:induction false} CountRepeat(t: Time, n: nat, a: Time, span: nat)
    requires a <= t < a + span
    ensures CountIn(Repeat(t, n), a, span) == n
  {
    if n > 0 {
      CountRepeat(t, n - 1, a, span);
      assert Repeat(t, n)[..n - 1] == Repeat(t, n - 1);
    }
  }

  lemma StartProbed(cfg: Settings, id: string)
    ensures Probed(cfg, Start, id, 0, [])
  {
  }

  lemma AdmitsFirst(max: nat, span: nat, t: Time, k: nat)
    requires 1 <= max && t < span && k < max - 1
    ensures !Barred(max, span, [0] + Repeat(t, k), t)
  {
    WindowRepeat(span, [0], t, k);
  }

  lemma AdmitsSecond(max: nat, span: nat, t: Time, k: nat)
    requires 1 <= max && t < span && k < max
    ensures !Barred(max, span, [0] + Repeat(t, max - 1) + Repeat(span, k), span)
  {
    var ts := [0] + Repeat(t, max - 1);
    WindowRepeat(span, [0], t, max - 1);
    assert Window(span, ts)[0] == 0;
    WindowRepeat(span, ts, span, k);
  }

  /** One failure at time zero, then all but one of the rest at `t` in its window. */
  lemma FirstWindow(cfg: Settings, id: string, t: Time) returns (h: History)
    requires Positive(cfg) && cfg.maxAttempts >= 1 && t < Span(cfg)
    ensures Probed(cfg, h, id, t, [0] + Repeat(t, cfg.maxAttempts - 1))
  {
    StartProbed(cfg, id);
    OneMore(cfg, Start, id, 0, []);
    assert [] + [0] == [0];
    h := Attempt(Start, id);
    Wait(cfg, h, id, 0, [0], t);
    forall k | 0 <= k < cfg.maxAttempts - 1 ensures !Barred(cfg.maxAttempts, Span(cfg), [0] + Repeat(t, k), t) {
      AdmitsFirst(cfg.maxAttempts, Span(cfg), t, k);
    }
    h := Burst(cfg, Then(h, Tick(t)), id, t, [0], cfg.maxAttempts - 1);
  }

  /** A full window as soon as the first one is over. */
  lemma SecondWindow(cfg: Settings, id: string, h: History, t: Time, ts: seq<Time>) returns (h': History)
    requires Positive(cfg) && cfg.maxAttempts >= 1 && Probed(cfg, h, id, t, ts) && t < Span(cfg)
    requires ts == [0] + Repeat(t, cfg.maxAttempts - 1)
    ensures Probed(cfg, h', id, Span(cfg), ts + Repeat(Span(cfg), cfg.maxAttempts))
  {
    var span := Span(cfg);
    Wait(cfg, h, id, t, ts, span - t);
    forall k | 0 <= k < cfg.maxAttempts ensures !Barred(cfg.maxAttempts, span, ts + Repeat(span, k), span) {
      AdmitsSecond(cfg.maxAttempts, span, t, k);
    }
    h' := Burst(cfg, Then(h, Tick(span - t)), id, span, ts, cfg.maxAttempts);
  }

  lemma TightCount(span: nat, max: nat)
    requires span >= 2 && max >= 1
    ensures CountIn([0] + Repeat(span - 1, max - 1) + Repeat(span, max), span - 1, span) == 2 * max - 1
  {
    CountInAppend([0] + Repeat(span - 1, max - 1), Repeat(span, max), span - 1, span);
    CountInAppend([0], Repeat(span - 1, max - 1), span - 1, span);
    CountInNone([0], span - 1, span);
    CountRepeat(span - 1, max - 1, span - 1, span);
    CountRepeat(span, max, span - 1, span);
  }

  /** The bound is attained for every limit of at least one attempt. */
  lemma SlidingWindowBoundIsTight(cfg: Settings, id: string) returns (h: History, a: Time)
    requires Positive(cfg) && cfg.maxAttempts >= 1
    ensures Valid(cfg, h)
    ensures forall i :: 0 <= i < |Log(cfg, h)| ==> !Correct(Log(cfg, h)[i], id)
    ensures CountIn(AllFailures(Log(cfg, h), id), a, Span(cfg)) == 2 * cfg.maxAttempts - 1
  {
    a := Span(cfg) - 1;
    var g := FirstWindow(cfg, id, a);
    h := SecondWindow(cfg, id, g, a, [0] + Repeat(a, cfg.maxAttempts - 1));
    assert AllFailures(Log(cfg, h), id) == [0] + Repeat(a, cfg.maxAttempts - 1) + Repeat(Span(cfg), cfg.maxAttempts);
    TightCount(Span(cfg), cfg.maxAttempts);
  }

  ghost predicate NoneCorrect(cfg: Settings, h: History, id: string) {
    forall i :: 0 <= i < |Log(cfg, h)| ==> !Correct(Log(cfg, h)[i], id)
  }

  /** The promise of the login endpoint for `id`, about any interval as long as the window. */
  ghost predicate PromiseKept(cfg: Settings, id: string) {
    forall h, a :: Valid(cfg, h) && NoneCorrect(cfg, h, id) ==>
      CountIn(AllFailures(Log(cfg, h), id), a, Span(cfg)) <= cfg.maxAttempts
  }

  /** It is kept exactly when the limit is one. */
  lemma PromiseKeptExactly(cfg: Settings, id: string)
    requires Positive(cfg) && cfg.maxAttempts >= 1
    ensures PromiseKept(cfg, id) <==> cfg.maxAttempts == 1
  {
    if cfg.maxAttempts == 1 {
      forall h, a | Valid(cfg, h) && NoneCorrect(cfg, h, id)
        ensures CountIn(AllFailures(Log(cfg, h), id), a, Span(cfg)) <= cfg.maxAttempts
      {
        SlidingWindowBound(cfg, h, id, a);
      }
    } else {
      var h, a := SlidingWindowBoundIsTight(cfg, id);
      assert NoneCorrect(cfg, h, id);
    }
  }
}
