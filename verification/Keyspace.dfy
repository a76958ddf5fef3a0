/** One flat Redis database with five literal key prefixes behaves like five
    databases that know nothing of each other. */
module Keyspace {
  import opened Wrappers
  import opened Redis

  datatype Namespace = Verify | PasswordReset | GoogleState | Blacklist | FailedLogin

  function Prefix(ns: Namespace): string {
    match ns
    case Verify => "verify:"
    case PasswordReset => "pwd_reset:"
    case GoogleState => "oauth:google:state:"
    case Blacklist => "blacklist:jti:"
    case FailedLogin => "failed_login:"
  }

  /** The key an f-string builds from a prefix and any suffix. */
  function Render(ns: Namespace, suffix: string): string { Prefix(ns) + suffix }

  lemma RenderInjective(ns: Namespace, suffix: string, ns': Namespace, suffix': string)
    ensures Render(ns, suffix) == Render(ns', suffix') <==> ns == ns' && suffix == suffix'
  {
    if Render(ns, suffix) == Render(ns', suffix') {
      assert Render(ns, suffix)[0] == Prefix(ns)[0] && Render(ns', suffix')[0] == Prefix(ns')[0];
      assert suffix == Render(ns, suffix)[|Prefix(ns)|..] && suffix' == Render(ns', suffix')[|Prefix(ns')|..];
    }
  }

  // ----- Commands -----

  /** A stored string, told apart by whether it reads as an integer. */
  datatype Value = Num(n: int) | Text(text: string)

  datatype Op = Set(value: Value, ttl: nat) | Read | ReadAndDelete | Increment | SetExpiry(ttl: nat) | Remove | Test

  datatype Reply = Nothing | Just(value: Value) | Count(n: int) | NotAnInteger

  function Apply<K>(m: map<K, Entry<Value>>, now: Time, k: K, op: Op): (map<K, Entry<Value>>, Reply) {
    var found := Get(m, now, k);
    match op
    case Set(v, ttl) => (SetEx(m, now, k, v, ttl), Nothing)
    case Read => (m, if found.Some? then Just(found.value) else Nothing)
    case ReadAndDelete => (Delete(m, k), if found.Some? then Just(found.value) else Nothing)
    case Increment =>
      if found.None? then (m[k := Entry(Num(1), None)], Count(1))
      else if found.value.Text? then (m, NotAnInteger)
      else (m[k := m[k].(value := Num(found.value.n + 1))], Count(found.value.n + 1))
    case SetExpiry(ttl) => (Expire(m, now, k, ttl), Count(if found.Some? then 1 else 0))
    case Remove => (Delete(m, k), Count(if found.Some? then 1 else 0))
    case Test => (m, Count(if found.Some? then 1 else 0))
  }

  datatype Command = Tick(elapsed: nat) | On(ns: Namespace, suffix: string, op: Op)

  datatype Database<!K> = Database(now: Time, data: map<K, Entry<Value>>)

  /** The one flat database. */
  function Flat(cmds: seq<Command>): Database<string> {
    if cmds == [] then Database(0, map[])
    else
      var db := Flat(cmds[..|cmds| - 1]);
      match cmds[|cmds| - 1]
      case Tick(d) => db.(now := db.now + d)
      case On(ns, suffix, op) => db.(data := Apply(db.data, db.now, Render(ns, suffix), op).0)
  }

  /** The flat database's replies to the commands of one namespace. */
  function FlatReplies(cmds: seq<Command>, ns: Namespace): seq<Reply> {
    if cmds == [] then []
    else
      var before := cmds[..|cmds| - 1];
      var db := Flat(before);
      match cmds[|cmds| - 1]
      case On(ns', suffix, op) =>
        FlatReplies(before, ns) + if ns' == ns then [Apply(db.data, db.now, Render(ns, suffix), op).1] else []
      case Tick(_) => FlatReplies(before, ns)
  }

  /** What is left of a command sequence for one namespace: its own commands and the clock. */
  function Own(cmds: seq<Command>, ns: Namespace): seq<Command> {
    if cmds == [] then []
    else
      var c := cmds[|cmds| - 1];
      Own(cmds[..|cmds| - 1], ns) + if c.Tick? || c.ns == ns then [c] else []
  }

  /** A database of its own, keyed by bare suffixes. */
  function Alone(cmds: seq<Command>): Database<string> {
    if cmds == [] then Database(0, map[])
    else
      var db := Alone(cmds[..|cmds| - 1]);
      match cmds[|cmds| - 1]
      case Tick(d) => db.(now := db.now + d)
      case On(_, suffix, op) => db.(data := Apply(db.data, db.now, suffix, op).0)
  }

  function AloneReplies(cmds: seq<Command>): seq<Reply> {
    if cmds == [] then []
    else
      var before := cmds[..|cmds| - 1];
      var db := Alone(before);
      match cmds[|cmds| - 1]
      case On(_, suffix, op) => AloneReplies(before) + [Apply(db.data, db.now, suffix, op).1]
      case Tick(_) => AloneReplies(before)
  }

  // ----- Refinement -----

  predicate SameEntry(flat: map<string, Entry<Value>>, own: map<string, Entry<Value>>, ns: Namespace, suffix: string) {
    if suffix in own then Render(ns, suffix) in flat && flat[Render(ns, suffix)] == own[suffix]
    else Render(ns, suffix) !in flat
  }

  ghost predicate Views(flat: map<string, Entry<Value>>, own: map<string, Entry<Value>>, ns: Namespace) {
    forall suffix :: SameEntry(flat, own, ns, suffix)
  }

  /** A command touches no key but its own. */
  lemma ApplyIsLocal<K>(m: map<K, Entry<Value>>, now: Time, k: K, op: Op, other: K)
    requires other != k
    ensures var m' := Apply(m, now, k, op).0;
      (other in m' <==> other in m) && (other in m ==> m'[other] == m[other])
  {
  }

  lemma OwnCommand(flat: map<string, Entry<Value>>, own: map<string, Entry<Value>>, now: Time, ns: Namespace, suffix: string, op: Op)
    requires Views(flat, own, ns)
    ensures Apply(flat, now, Render(ns, suffix), op).1 == Apply(own, now, suffix, op).1
    ensures Views(Apply(flat, now, Render(ns, suffix), op).0, Apply(own, now, suffix, op).0, ns)
  {
    assert SameEntry(flat, own, ns, suffix);
    forall other ensures SameEntry(Apply(flat, now, Render(ns, suffix), op).0, Apply(own, now, suffix, op).0, ns, other) {
      assert SameEntry(flat, own, ns, other);
      if other != suffix {
        RenderInjective(ns, suffix, ns, other);
        ApplyIsLocal(flat, now, Render(ns, suffix), op, Render(ns, other));
        ApplyIsLocal(own, now, suffix, op, other);
      }
    }
  }

  lemma ForeignCommand(flat: map<string, Entry<Value>>, own: map<string, Entry<Value>>, now: Time, ns: Namespace,
                       ns': Namespace, suffix: string, op: Op)
    requires Views(flat, own, ns) && ns' != ns
    ensures Views(Apply(flat, now, Render(ns', suffix), op).0, own, ns)
  {
    forall other ensures SameEntry(Apply(flat, now, Render(ns', suffix), op).0, own, ns, other) {
      assert SameEntry(flat, own, ns, other);
      RenderInjective(ns', suffix, ns, other);
      ApplyIsLocal(flat, now, Render(ns', suffix), op, Render(ns, other));
    }
  }

  /** For every sequence of commands on any suffixes and every namespace, the
      flat database replies to that namespace's commands as a database of its
      own would that saw nothing else, and holds the same entries. */
  lemma {:induction false} FlatIsFiveStores(cmds: seq<Command>, ns: Namespace)
    ensures Flat(cmds).now == Alone(Own(cmds, ns)).now
    ensures Views(Flat(cmds).data, Alone(Own(cmds, ns)).data, ns)
    ensures FlatReplies(cmds, ns) == AloneReplies(Own(cmds, ns))
  {
    if cmds == [] {
    } else {
      var before, c := cmds[..|cmds| - 1], cmds[|cmds| - 1];
      FlatIsFiveStores(before, ns);
      var own := Own(before, ns);
      var flat := Flat(before);
      if c.Tick? || c.ns == ns {
        assert (own + [c])[..|own|] == own;
      } else {
        assert own + [] == own;
      }
      match c {
        case Tick(_) =>
        case On(ns', suffix, op) =>
          if ns' == ns {
            OwnCommand(flat.data, Alone(own).data, flat.now, ns, suffix, op);
          } else {
            ForeignCommand(flat.data, Alone(own).data, flat.now, ns, ns', suffix, op);
          }
      }
    }
  }

  // ----- Values of their own types -----

  /** Entries of any type as the strings they are stored as. */
  function Written<K, V>(m: map<K, Entry<V>>, write: V -> Value): map<K, Entry<Value>> {
    map k | k in m :: Entry(write(m[k].value), m[k].expiry)
  }

  function Found<V>(v: Option<V>, write: V -> Value): Reply {
    if v.Some? then Just(write(v.value)) else Nothing
  }

  /** The commands on a map of typed values do to it, and answer, what the
      database does to its stored strings. */
  lemma TypedCommands<K, V>(m: map<K, Entry<V>>, write: V -> Value, now: Time, k: K, v: V, ttl: nat)
    ensures var w, n := Written(m, write), Count(if Exists(m, now, k) then 1 else 0);
      && Apply(w, now, k, Set(write(v), ttl)) == (Written(SetEx(m, now, k, v, ttl), write), Nothing)
      && Apply(w, now, k, Read) == (w, Found(Get(m, now, k), write))
      && Apply(w, now, k, ReadAndDelete) == (Written(Delete(m, k), write), Found(Get(m, now, k), write))
      && Apply(w, now, k, SetExpiry(ttl)) == (Written(Expire(m, now, k, ttl), write), n)
      && Apply(w, now, k, Remove) == (Written(Delete(m, k), write), n)
      && Apply(w, now, k, Test) == (w, n)
  {
    var w := Written(m, write);
    assert Written(SetEx(m, now, k, v, ttl), write) == SetEx(w, now, k, write(v), ttl);
    assert Written(Delete(m, k), write) == Delete(w, k);
    assert Written(Expire(m, now, k, ttl), write) == Expire(w, now, k, ttl);
  }

  /** On counters INCR never meets a string that is no integer. */
  lemma TypedCounter<K>(m: map<K, Entry<int>>, now: Time, k: K)
    ensures var write, incremented := (n: int) => Num(n), Incr(m, now, k);
      Apply(Written(m, write), now, k, Increment) == (Written(incremented, write), Count(incremented[k].value))
  {
    var write := (n: int) => Num(n);
    var w := Written(m, write);
    assert Written(Incr(m, now, k), write)
      == w[k := if Exists(m, now, k) then w[k].(value := Num(m[k].value + 1)) else Entry(Num(1), None)];
  }
}
