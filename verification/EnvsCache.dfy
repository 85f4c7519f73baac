/** Reading settings from the environment, live or through the cache (vllm/envs.py). */
module EnvsCache {
  import opened Options

  type Env = map<string, string>

  /** A getter computes its value from the environment, or is get_env_or_set_default of a variable. */
  datatype Getter = Computes(f: Env -> string) | SetsDefault(variable: string)

  /** cache is the table of functools.cache around __getattr__, if there is one. */
  datatype State = State(environ: Env, cache: Option<map<string, string>>)

  /** factory is what the default factory gives if it is asked. */
  function Live(g: Getter, environ: Env, factory: string): (string, Env) {
    match g
    case Computes(f) => (f(environ), environ)
    case SetsDefault(v) => if v in environ then (environ[v], environ) else (factory, environ[v := factory])
  }

  /** Reading the first n names one after the other into the table. */
  function Filled(getters: map<string, Getter>, names: seq<string>, factory: string -> string, environ: Env, n: nat): (map<string, string>, Env)
    requires n <= |names| && forall i :: 0 <= i < |names| ==> names[i] in getters
  {
    if n == 0 then (map[], environ)
    else
      var (table, now) := Filled(getters, names, factory, environ, n - 1);
      var (value, next) := Live(getters[names[n - 1]], now, factory(names[n - 1]));
      (table[names[n - 1] := value], next)
  }

  /** names[j] is the first of the first n names whose default goes to variable v. */
  ghost predicate FirstSetter(getters: map<string, Getter>, names: seq<string>, n: nat, v: string, j: int)
    requires n <= |names| && forall i :: 0 <= i < |names| ==> names[i] in getters
  {
    && 0 <= j < n && getters[names[j]].SetsDefault? && getters[names[j]].variable == v
    && forall i :: 0 <= i < j ==> getters[names[i]].SetsDefault? ==> getters[names[i]].variable != v
  }

  /** e is environ with the variables that the first n names default and that were not set, each with what
      the factory of the first such name gave. */
  ghost predicate WithDefaults(getters: map<string, Getter>, names: seq<string>, factory: string -> string, environ: Env, n: nat, e: Env)
    requires n <= |names| && forall i :: 0 <= i < |names| ==> names[i] in getters
  {
    && (forall v :: v in environ ==> v in e && e[v] == environ[v])
    && (forall j :: 0 <= j < n && getters[names[j]].SetsDefault? ==> getters[names[j]].variable in e)
    && (forall v :: v in e && v !in environ ==> exists j :: FirstSetter(getters, names, n, v, j) && e[v] == factory(names[j]))
  }

  /** What the table holds for a name: the variable it defaults, as it is now; or what it computes from the
      environment with the defaults of the names listed before it. */
  ghost predicate Entry(getters: map<string, Getter>, names: seq<string>, factory: string -> string, environ: Env, now: Env, n: nat, name: string, value: string)
    requires name in getters && n <= |names| && forall i :: 0 <= i < |names| ==> names[i] in getters
  {
    match getters[name]
    case SetsDefault(v) => v in now && value == now[v]
    case Computes(f) =>
      exists i: nat, e: Env :: i < n && names[i] == name && WithDefaults(getters, names, factory, environ, i, e) && value == f(e)
  }

  /** The state that enabling leaves behind, from an environment and no cache. */
  ghost predicate TakesSnapshot(getters: map<string, Getter>, names: seq<string>, factory: string -> string, environ: Env, s: State)
    requires forall k :: k in names <==> k in getters
  {
    && s.cache.Some? && s.cache.value.Keys == getters.Keys
    && WithDefaults(getters, names, factory, environ, |names|, s.environ)
    && forall k :: k in getters ==> Entry(getters, names, factory, environ, s.environ, |names|, k, s.cache.value[k])
  }

  /** Every variable that some getter defaults is set. */
  ghost predicate AllSet(getters: map<string, Getter>, environ: Env) {
    forall k :: k in getters && getters[k].SetsDefault? ==> getters[k].variable in environ
  }

  datatype Op = SetEnv(variable: string, value: string) | UnsetEnv(variable: string) | Get(name: string, factory: string)
              | Enable(factories: string -> string) | Disable

  predicate Cached(s: State, name: string) {
    s.cache.Some? && name in s.cache.value
  }

  class Envs {
    const getters: map<string, Getter>
    /** The order of environment_variables. */
    const names: seq<string>
    var state: State

    ghost predicate Listed() {
      forall k :: k in names <==> k in getters
    }

    /** __getattr__; None stands for AttributeError. */
    method GetAttr(name: string, factory: string) returns (value: Option<string>)
      requires Listed()
      modifies this
      // a cached name gives its snapshot and changes nothing, and only an unlisted name gives nothing
      ensures Cached(old(state), name) ==> value == Some(old(state).cache.value[name]) && state == old(state)
      ensures value == None <==> name !in getters && !Cached(old(state), name)
      // otherwise a computed setting is that of the environment, and a defaulted one ends up in it
      ensures name in getters && !Cached(old(state), name) && getters[name].Computes? ==>
        value == Some(getters[name].f(old(state).environ)) && state.environ == old(state).environ
      ensures name in getters && !Cached(old(state), name) && getters[name].SetsDefault? ==>
        var v := getters[name].variable;
        && v in state.environ && value == Some(state.environ[v])
        && state.environ == if v in old(state).environ then old(state).environ else old(state).environ[v := factory]
      // and from then on it is cached, if there is a cache
      ensures state.cache == if value == None || old(state).cache == None then old(state).cache else Some(old(state).cache.value[name := value.value])
      ensures (state, value) == Read(getters, old(state), name, factory)
    {
      if state.cache.Some? && name in state.cache.value {
        assert state.cache.value[name := state.cache.value[name]] == state.cache.value;
        return Some(state.cache.value[name]);
      }
      if name !in getters {
        return None;
      }
      var r := Live(getters[name], state.environ, factory);
      state := state.(environ := r.1);
      if state.cache.Some? {
        state := state.(cache := Some(state.cache.value[name := r.0]));
      }
      value := Some(r.0);
    }

    /** enable_envs_cache. */
    method EnableEnvsCache(factories: string -> string)
      requires Listed()
      modifies this
      ensures old(state).cache.Some? ==> state == old(state)
      ensures old(state).cache == None ==> TakesSnapshot(getters, names, factories, old(state).environ, state)
      ensures state == Enabled(getters, names, old(state), factories)
    {
      if state.cache.Some? {
        return;
      }
      var table: map<string, string> := map[];
      var environ := state.environ;
      for i := 0 to |names|
        invariant (table, environ) == Filled(getters, names, factories, old(state).environ, i)
      {
        var r := Live(getters[names[i]], environ, factories(names[i]));
        table, environ := table[names[i] := r.0], r.1;
      }
      state := State(environ, Some(table));
      EnabledIsSnapshot(getters, names, old(state), factories);
    }

    /** disable_envs_cache. */
    method DisableEnvsCache()
      modifies this
      ensures state == old(state).(cache := None)
    {
      if state.cache.Some? {
        state := state.(cache := None);
      }
    }
  }

  function Read(getters: map<string, Getter>, s: State, name: string, factory: string): (State, Option<string>) {
    if s.cache.Some? && name in s.cache.value then (s, Some(s.cache.value[name]))
    else if name !in getters then (s, None)
    else
      var (value, environ) := Live(getters[name], s.environ, factory);
      (State(environ, if s.cache.Some? then Some(s.cache.value[name := value]) else None), Some(value))
  }

  function Enabled(getters: map<string, Getter>, names: seq<string>, s: State, factories: string -> string): State
    requires forall k :: k in names <==> k in getters
  {
    if s.cache.Some? then s
    else
      var (table, environ) := Filled(getters, names, factories, s.environ, |names|);
      State(environ, Some(table))
  }

  function Do(getters: map<string, Getter>, names: seq<string>, s: State, op: Op): State
    requires forall k :: k in names <==> k in getters
  {
    match op
    case SetEnv(v, x) => s.(environ := s.environ[v := x])
    case UnsetEnv(v) => s.(environ := s.environ - {v})
    case Get(name, factory) => Read(getters, s, name, factory).0
    case Enable(factories) => Enabled(getters, names, s, factories)
    case Disable => s.(cache := None)
  }

  function After(getters: map<string, Getter>, names: seq<string>, s: State, ops: seq<Op>): State
    requires forall k :: k in names <==> k in getters
  {
    if ops == [] then s else Do(getters, names, After(getters, names, s, ops[..|ops| - 1]), ops[|ops| - 1])
  }

  /** Enabling reads every setting once. */
  lemma {:induction false} FilledAll(getters: map<string, Getter>, names: seq<string>, factory: string -> string, environ: Env, n: nat)
    requires n <= |names| && forall i :: 0 <= i < |names| ==> names[i] in getters
    ensures forall k :: k in Filled(getters, names, factory, environ, n).0 <==> k in names[..n]
    ensures var now := Filled(getters, names, factory, environ, n).1;
            forall v :: v in environ ==> v in now && now[v] == environ[v]
  {
    if n > 0 {
      FilledAll(getters, names, factory, environ, n - 1);
      assert names[..n] == names[..n - 1] + [names[n - 1]];
    }
  }

  ghost predicate Entries(getters: map<string, Getter>, names: seq<string>, factory: string -> string, environ: Env, n: nat, table: map<string, string>, now: Env)
    requires n <= |names| && forall i :: 0 <= i < |names| ==> names[i] in getters
  {
    && WithDefaults(getters, names, factory, environ, n, now)
    && forall k :: k in table ==> k in getters && Entry(getters, names, factory, environ, now, n, k, table[k])
  }

  /** The first n reads leave the environment with the first n defaults, and the entries they should. */
  lemma {:induction false} FilledEntries(getters: map<string, Getter>, names: seq<string>, factory: string -> string, environ: Env, n: nat)
    requires n <= |names| && forall i :: 0 <= i < |names| ==> names[i] in getters
    ensures var r := Filled(getters, names, factory, environ, n); Entries(getters, names, factory, environ, n, r.0, r.1)
  {
    if n > 0 {
      hide Entries, Live;
      FilledEntries(getters, names, factory, environ, n - 1);
      var r := Filled(getters, names, factory, environ, n - 1);
      EntriesStep(getters, names, factory, environ, n - 1, r.0, r.1);
    }
  }

  lemma EntriesStep(getters: map<string, Getter>, names: seq<string>, factory: string -> string, environ: Env, n: nat, table: map<string, string>, now: Env)
    requires n < |names| && (forall i :: 0 <= i < |names| ==> names[i] in getters) && Entries(getters, names, factory, environ, n, table, now)
    ensures var r := Live(getters[names[n]], now, factory(names[n]));
            Entries(getters, names, factory, environ, n + 1, table[names[n] := r.0], r.1)
  {
    NextDefault(getters, names, factory, environ, n, now);
    NewEntry(getters, names, factory, environ, n, now);
    forall k | k in table && k != names[n]
      ensures Entry(getters, names, factory, environ, Live(getters[names[n]], now, factory(names[n])).1, n + 1, k, table[k])
    {
      OldEntry(getters, names, factory, environ, n, now, k, table[k]);
    }
    hide WithDefaults, Entry, Live;
  }

  lemma NewEntry(getters: map<string, Getter>, names: seq<string>, factory: string -> string, environ: Env, n: nat, now: Env)
    requires n < |names| && (forall i :: 0 <= i < |names| ==> names[i] in getters) && WithDefaults(getters, names, factory, environ, n, now)
    ensures var (value, next) := Live(getters[names[n]], now, factory(names[n]));
            Entry(getters, names, factory, environ, next, n + 1, names[n], value)
  {
    hide WithDefaults;
  }

  lemma OldEntry(getters: map<string, Getter>, names: seq<string>, factory: string -> string, environ: Env, n: nat, now: Env, k: string, value: string)
    requires n < |names| && (forall i :: 0 <= i < |names| ==> names[i] in getters)
    requires k in getters && Entry(getters, names, factory, environ, now, n, k, value)
    ensures Entry(getters, names, factory, environ, Live(getters[names[n]], now, factory(names[n])).1, n + 1, k, value)
  {
    hide WithDefaults;
  }

  lemma NextDefault(getters: map<string, Getter>, names: seq<string>, factory: string -> string, environ: Env, n: nat, e: Env)
    requires n < |names| && (forall i :: 0 <= i < |names| ==> names[i] in getters) && WithDefaults(getters, names, factory, environ, n, e)
    ensures WithDefaults(getters, names, factory, environ, n + 1, Live(getters[names[n]], e, factory(names[n])).1)
  {
    var next := Live(getters[names[n]], e, factory(names[n])).1;
    forall v | v in next && v !in environ
      ensures exists j :: FirstSetter(getters, names, n + 1, v, j) && next[v] == factory(names[j])
    {
      if v in e {
        var j :| FirstSetter(getters, names, n, v, j) && e[v] == factory(names[j]);
        assert FirstSetter(getters, names, n + 1, v, j);
      } else {
        assert FirstSetter(getters, names, n + 1, v, n);
      }
    }
  }

  lemma EnabledIsSnapshot(getters: map<string, Getter>, names: seq<string>, s: State, factories: string -> string)
    requires (forall k :: k in names <==> k in getters) && s.cache == None
    ensures TakesSnapshot(getters, names, factories, s.environ, Enabled(getters, names, s, factories))
  {
    FilledAll(getters, names, factories, s.environ, |names|);
    assert names[..|names|] == names;
    FilledEntries(getters, names, factories, s.environ, |names|);
  }

  /** If nothing had to be defaulted, the snapshot is the settings of the environment as it was. */
  lemma SnapshotOfSet(getters: map<string, Getter>, names: seq<string>, factory: string -> string, environ: Env, s: State, name: string)
    requires (forall k :: k in names <==> k in getters) && TakesSnapshot(getters, names, factory, environ, s) && name in getters
    ensures getters[name].SetsDefault? && getters[name].variable in environ ==> s.cache.value[name] == environ[getters[name].variable]
    ensures AllSet(getters, environ) ==> s.environ == environ && (getters[name].Computes? ==> s.cache.value[name] == getters[name].f(environ))
  {
    assert Entry(getters, names, factory, environ, s.environ, |names|, name, s.cache.value[name]);
    if AllSet(getters, environ) {
      SameIfSet(getters, names, factory, environ, |names|, s.environ);
      if getters[name].Computes? {
        var i: nat, e: Env :| i < |names| && names[i] == name && WithDefaults(getters, names, factory, environ, i, e) && s.cache.value[name] == getters[name].f(e);
        SameIfSet(getters, names, factory, environ, i, e);
      }
    }
  }

  lemma SameIfSet(getters: map<string, Getter>, names: seq<string>, factory: string -> string, environ: Env, n: nat, e: Env)
    requires n <= |names| && (forall i :: 0 <= i < |names| ==> names[i] in getters)
    requires WithDefaults(getters, names, factory, environ, n, e) && AllSet(getters, environ)
    ensures e == environ
  {
    assert e.Keys == environ.Keys;
  }

  /** Between enabling and disabling, whatever happens to the environment and however often the cache is
      enabled again, every read gives the setting as it was when enabled. */
  lemma {:induction false} ReadsSnapshot(getters: map<string, Getter>, names: seq<string>, s: State, factories: string -> string, ops: seq<Op>,
                                         name: string, factory: string)
    requires (forall k :: k in names <==> k in getters) && s.cache == None && Disable !in ops
    ensures var on := Enabled(getters, names, s, factories);
            var now := After(getters, names, on, ops);
            var (next, value) := Read(getters, now, name, factory);
            && TakesSnapshot(getters, names, factories, s.environ, on) && now.cache == on.cache && next == now
            && (value == None <==> name !in getters)
            && (name in getters ==>
                  && Entry(getters, names, factories, s.environ, on.environ, |names|, name, value.value)
                  && (AllSet(getters, s.environ) && getters[name].Computes? ==> value.value == getters[name].f(s.environ))
                  && (getters[name].SetsDefault? && getters[name].variable in s.environ ==> value.value == s.environ[getters[name].variable]))
  {
    EnabledIsSnapshot(getters, names, s, factories);
    var on := Enabled(getters, names, s, factories);
    KeepsCache(getters, names, on, ops);
    if name in getters {
      SnapshotOfSet(getters, names, factories, s.environ, on, name);
    }
  }

  lemma {:induction false} KeepsCache(getters: map<string, Getter>, names: seq<string>, s: State, ops: seq<Op>)
    requires (forall k :: k in names <==> k in getters) && s.cache.Some? && (forall k :: k in s.cache.value <==> k in getters) && Disable !in ops
    ensures After(getters, names, s, ops).cache == s.cache
  {
    if ops != [] {
      KeepsCache(getters, names, s, ops[..|ops| - 1]);
      assert ops[|ops| - 1] != Disable;
    }
  }

  /** Disabling brings back live reads of the environment as it is then. */
  lemma DisableIsLive(getters: map<string, Getter>, names: seq<string>, s: State, ops: seq<Op>, name: string, factory: string)
    requires (forall k :: k in names <==> k in getters) && name in getters
    ensures var now := After(getters, names, s, ops + [Disable]);
      && now.cache == None && now.environ == After(getters, names, s, ops).environ
      && Read(getters, now, name, factory).1 == Some(Live(getters[name], now.environ, factory).0)
  {
    assert (ops + [Disable])[..|ops|] == ops;
  }

  predicate Touches(op: Op, v: string) {
    (op.SetEnv? || op.UnsetEnv?) && op.variable == v
  }

  /** A variable that is set stays as it is until somebody sets or unsets it: reads and enabling do not change it. */
  lemma {:induction false} VariableStays(getters: map<string, Getter>, names: seq<string>, s: State, ops: seq<Op>, v: string)
    requires (forall k :: k in names <==> k in getters) && v in s.environ && forall i :: 0 <= i < |ops| ==> !Touches(ops[i], v)
    ensures v in After(getters, names, s, ops).environ && After(getters, names, s, ops).environ[v] == s.environ[v]
  {
    if ops != [] {
      var init, last := ops[..|ops| - 1], ops[|ops| - 1];
      VariableStays(getters, names, s, init, v);
      if last.Enable? {
        FilledAll(getters, names, last.factories, After(getters, names, s, init).environ, |names|);
      }
    }
  }

  /** A generated default is generated once: later live reads give it again, whatever the factory would give. */
  lemma DefaultIsStable(getters: map<string, Getter>, names: seq<string>, s: State, name: string, factory: string, ops: seq<Op>, factory': string)
    requires (forall k :: k in names <==> k in getters) && name in getters && getters[name].SetsDefault? && s.cache == None
    requires forall i :: 0 <= i < |ops| ==> !Touches(ops[i], getters[name].variable)
    ensures var (first, value) := Read(getters, s, name, factory);
            var now := After(getters, names, first, ops);
            now.cache == None ==> Read(getters, now, name, factory').1 == value
  {
    var (first, value) := Read(getters, s, name, factory);
    VariableStays(getters, names, first, ops, getters[name].variable);
  }
}
