/**
 * The test-mode session store behind the refactored demos: a dictionary
 * read with a default, written key by key and initialised only when a key
 * is absent, and the per-demo state with its execution counter.
 */
module SessionState {
  /** A stored Python value, as far as the demos use one. */
  datatype Value =
    | NoneValue
    | Bool(b: bool)
    | Int(i: int)
    | Str(s: string)
    | Dict(fields: map<string, Value>)

  /** A Python call that either returns a value or raises. */
  datatype Outcome<T> = Ok(value: T) | Raised

  datatype Option<T> = None | Some(value: T)

  /** `store.get(key, default)`. */
  function Lookup(store: map<string, Value>, key: string, default: Value): Value {
    if key in store then store[key] else default
  }

  /** The store after `initialize(key, initial)`: `initial` is written only where `key` is absent. */
  function Initialized(store: map<string, Value>, key: string, initial: Value): (s: map<string, Value>)
    ensures key in s && s.Keys == store.Keys + {key}
    ensures key in store ==> s == store
    ensures key !in store ==> s[key] == initial
    ensures forall k :: k in store ==> s[k] == store[k]
  {
    if key in store then store else store[key := initial]
  }

  /** Initialising a key a second time, with any value, changes nothing. */
  lemma InitializeTwiceKeepsFirst(store: map<string, Value>, key: string, first: Value, second: Value)
    ensures Initialized(Initialized(store, key, first), key, second) == Initialized(store, key, first)
    ensures Lookup(Initialized(Initialized(store, key, first), key, second), key, NoneValue)
      == (if key in store then store[key] else first)
  {
  }

  class SessionStateWrapper {
    /** `_test_storage`, the dictionary the wrapper uses in test mode. */
    var storage: map<string, Value>

    /** `SessionStateWrapper(test_mode=True)`: an empty store. */
    constructor ()
      ensures storage == map[]
    {
      storage := map[];
    }

    /** `get`: the stored value when the key was set, else the default. */
    function Get(key: string, default: Value): (v: Value)
      reads this
      ensures key in storage ==> v == storage[key]
      ensures key !in storage ==> v == default
    {
      Lookup(storage, key, default)
    }

    /** `exists`: whether the key was set, so `get` ignores its default exactly for these keys. */
    predicate Exists(key: string)
      reads this
      ensures Exists(key) <==> forall d :: Get(key, d) == Get(key, NoneValue)
    {
      if key !in storage then
        assert Get(key, Bool(true)) != Get(key, NoneValue);
        false
      else
        true
    }

    /** `set`: the key now holds the value; every other key is as it was. */
    method Set(key: string, value: Value)
      modifies this
      ensures storage == old(storage)[key := value]
      ensures Exists(key) && forall d :: Get(key, d) == value
      ensures forall k, d :: k != key ==> Get(k, d) == old(Get(k, d))
    {
      storage := storage[key := value];
    }

    /** `initialize`: writes the initial value only when the key is absent, never overwriting. */
    method Initialize(key: string, initial: Value)
      modifies this
      ensures storage == Initialized(old(storage), key, initial)
    {
      if !Exists(key) {
        Set(key, initial);
      }
    }
  }

  /** `f"demo_state_{demo_name}"`. */
  function SessionKey(demoName: string): string {
    "demo_state_" + demoName
  }

  /** The counter field of a demo's state. */
  const CountField: string := "execution_count"

  /** The state a demo starts with: initialised, `gpt-4o-mini`, no executions. */
  const InitialState: Value :=
    Dict(map["initialized" := Bool(true), "model" := Str("gpt-4o-mini"), CountField := Int(0)])

  /** The state read when the store has none for the demo: a fresh empty dictionary. */
  const EmptyState: Value := Dict(map[])

  /** `state.get('execution_count', 0)`: raises when the state is not a dictionary. */
  function CountIn(state: Value): Outcome<Value> {
    match state
    case Dict(fields) => Ok(if CountField in fields then fields[CountField] else Int(0))
    case _ => Raised
  }

  /** The integer Python's `+ 1` sees in a count: an int, or a bool as 0 or 1. */
  function AsInt(v: Value): Option<int> {
    match v
    case Int(i) => Some(i)
    case Bool(b) => Some(if b then 1 else 0)
    case _ => None
  }

  /** The state after `state['execution_count'] = state.get('execution_count', 0) + 1`. */
  function Bumped(state: Value): (r: Outcome<Value>)
    ensures r.Ok? <==> CountIn(state).Ok? && AsInt(CountIn(state).value).Some?
    ensures r.Ok? ==> CountIn(r.value) == Ok(Int(AsInt(CountIn(state).value).value + 1))
    ensures r.Ok? ==> r.value.Dict? && r.value.fields.Keys == state.fields.Keys + {CountField}
    ensures r.Ok? ==> forall f :: f in state.fields && f != CountField ==> r.value.fields[f] == state.fields[f]
  {
    match CountIn(state)
    case Raised => Raised
    case Ok(count) =>
      match AsInt(count)
      case None => Raised
      case Some(n) => Ok(Dict(state.fields[CountField := Int(n + 1)]))
  }

  /** The whole store after `increment_execution_count`, or `None` when it raises. */
  function IncrementedStore(store: map<string, Value>, demoName: string): Option<map<string, Value>> {
    var key := SessionKey(demoName);
    match Bumped(Lookup(store, key, EmptyState))
    case Raised => None
    case Ok(state) => Some(store[key := state])
  }

  /** The store after `k` increments in a row, or `None` when one of them raises. */
  function IncrementedTimes(store: map<string, Value>, demoName: string, k: nat): Option<map<string, Value>> {
    if k == 0 then Some(store)
    else match IncrementedTimes(store, demoName, k - 1)
      case None => None
      case Some(s) => IncrementedStore(s, demoName)
  }

  /** A demo's count as `get_execution_count` reads it from a store. */
  function CountOf(store: map<string, Value>, demoName: string): Outcome<Value> {
    CountIn(Lookup(store, SessionKey(demoName), EmptyState))
  }

  /**
   * From a store where the demo's count is the integer `n`, `k` increments
   * succeed and leave the count at `n + k`; no other key changes.
   */
  lemma {:induction false} CountAfterIncrements(store: map<string, Value>, demoName: string, n: int, k: nat)
    requires CountOf(store, demoName) == Ok(Int(n))
    ensures IncrementedTimes(store, demoName, k).Some?
    ensures CountOf(IncrementedTimes(store, demoName, k).value, demoName) == Ok(Int(n + k))
    ensures forall key :: key in store && key != SessionKey(demoName) ==>
      key in IncrementedTimes(store, demoName, k).value && IncrementedTimes(store, demoName, k).value[key] == store[key]
  {
    if k > 0 {
      CountAfterIncrements(store, demoName, n, k - 1);
      var s := IncrementedTimes(store, demoName, k - 1).value;
      var state := Lookup(s, SessionKey(demoName), EmptyState);
      assert AsInt(CountIn(state).value) == Some(n + k - 1);
      assert Bumped(state).Ok?;
    }
  }

  /** A demo constructed over a store without its state starts with the initial state and a count of 0. */
  lemma FreshDemoState(store: map<string, Value>, demoName: string)
    requires SessionKey(demoName) !in store
    ensures Lookup(Initialized(store, SessionKey(demoName), InitialState), SessionKey(demoName), NoneValue) == InitialState
    ensures CountOf(Initialized(store, SessionKey(demoName), InitialState), demoName) == Ok(Int(0))
  {
  }

  class BaseDemoRefactored {
    const demoName: string
    const session: SessionStateWrapper

    /** `__init__` with a session wrapper given: stores the name and initialises the demo's state. */
    constructor (demoName: string, session: SessionStateWrapper)
      modifies session
      ensures this.demoName == demoName && this.session == session
      ensures session.storage == Initialized(old(session.storage), SessionKey(demoName), InitialState)
    {
      this.demoName := demoName;
      this.session := session;
      new;
      InitializeSessionState();
    }

    /** `_initialize_session_state`: the initial state under the demo's key, unless one is there. */
    method InitializeSessionState()
      modifies session
      ensures session.storage == Initialized(old(session.storage), SessionKey(demoName), InitialState)
    {
      session.Initialize(SessionKey(demoName), InitialState);
    }

    /**
     * `get_execution_count`: 0 when the demo has no state or its state no
     * counter, the stored counter otherwise; raises when the state is not a
     * dictionary.
     */
    method GetExecutionCount() returns (count: Outcome<Value>)
      ensures SessionKey(demoName) !in session.storage ==> count == Ok(Int(0))
      ensures count == CountOf(session.storage, demoName)
    {
      var state := session.Get(SessionKey(demoName), EmptyState);
      if state.Dict? {
        count := Ok(if CountField in state.fields then state.fields[CountField] else Int(0));
      } else {
        count := Raised;
      }
    }

    /**
     * `increment_execution_count`: the counter goes up by one and is written
     * back under the demo's key; when reading or adding raises, nothing changes.
     */
    method IncrementExecutionCount() returns (raised: bool)
      modifies session
      ensures raised <==> IncrementedStore(old(session.storage), demoName).None?
      ensures !raised ==> session.storage == IncrementedStore(old(session.storage), demoName).value
      ensures raised ==> session.storage == old(session.storage)
    {
      var key := SessionKey(demoName);
      var state := session.Get(key, EmptyState);
      var bumped := Bumped(state);
      if bumped.Raised? {
        raised := true;
      } else {
        raised := false;
        session.Set(key, bumped.value);
      }
    }
  }
}
