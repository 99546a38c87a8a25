/** The Elasticsearch facade of src/elasticsearch/main.ts: it registers every
    configured name with its own ConnectionManager when it is built, hands
    out clients (connecting lazily), and delegates closing and releasing to
    the manager. The name defaults to the primary connection's. */
module Facade {
  import opened Types
  import opened Connections
  import opened Model = Registry
  import RegistryInvariant
  import Lifecycle
  import opened Manager

  /** ElasticConfig: the primary connection's name and the client options of
      every configured name. */
  datatype ElasticConfig = ElasticConfig(connection: string, connections: map<string, Config>)

  /** The slots of the names in `names`, each registered with its config. */
  function RegisteredSlots(connections: map<string, Config>, names: set<string>): (m: map<string, Slot>)
    ensures m.Keys == names * connections.Keys
  {
    map n | n in names && n in connections :: Slot(n, connections[n], None, Registered)
  }

  lemma RegisteredSlotsGrow(connections: map<string, Config>, names: set<string>, n: string)
    requires n in connections
    ensures RegisteredSlots(connections, names + {n})
         == RegisteredSlots(connections, names)[n := Slot(n, connections[n], None, Registered)]
  {
  }

  /** What `connection(name)` does to the registry and returns: the name is
      connected, and the client of the slot's connection is returned; a
      connection without a client is reported with a runtime error. */
  function ConnectionOf(r: Registry, name: string, b: Building): (Registry, Result<Client>)
  {
    var (r', st) := Connect(r, name, b);
    if st.Raised? then (r', Err(st.error))
    else if Has(r', name) && SlotLive(r'.slots[name]) then (r', Ok(r'.slots[name].connection.value.client.value))
    else (r', Err(RuntimeException("Cannot get connection for " + name)))
  }

  // ----------------------------------------------------------- properties

  /** An unregistered name: the unmanaged-connection error of the manager
      comes through unchanged, with the name in its message, and nothing
      changes. */
  lemma ConnectionUnknown(r: Registry, name: string, b: Building)
    requires !Has(r, name)
    ensures ConnectionOf(r, name, b) == (r, Err(Unmanaged(name)))
    ensures Message(ConnectionOf(r, name, b).1.error) == "Unmanaged elasticsearch connection " + name
  {
  }

  /** Under the manager's invariant, `connection(name)` returns a client
      exactly when the name is connected afterwards, and that client is the
      one the slot's connection holds; the "Cannot get connection" error is
      never raised. A client that is built is the one returned. */
  lemma ConnectionResult(r: Registry, name: string, b: Building)
    requires RegistryInvariant.Valid(r)
    ensures var (r', res) := ConnectionOf(r, name, b);
            && r' == Connect(r, name, b).0
            && (res.Ok? <==> IsConnected(r', name))
            && (res.Ok? ==> r'.slots[name].connection.value.client == Some(res.value))
            && !(res.Err? && res.error.RuntimeException?)
            && (Has(r, name) && !IsConnected(r, name) && b.Builds? ==> res == Ok(b.client))
  {
    Lifecycle.ConnectReturnsConnected(r, name, b, b);
    if Has(r, name) && !IsConnected(r, name) && b.Builds? {
      Lifecycle.ConnectBuilt(r, name, b.client);
    }
  }

  /** A failed `connection(name)` reports either the unmanaged-name error or
      the client library's own error, rethrown. */
  lemma ConnectionErrors(r: Registry, name: string, b: Building)
    requires RegistryInvariant.Valid(r)
    ensures var res := ConnectionOf(r, name, b).1;
            res.Err? ==> (res.error == Unmanaged(name) && !Has(r, name)) ||
                         (b.BuildFails? && res.error == ClientFailure(b.fault))
  {
    Lifecycle.ConnectReturnsConnected(r, name, b, b);
  }

  /** `client()` twice returns the same client: the second connect is a
      no-op, whatever building a client would do then. */
  lemma ClientTwice(r: Registry, name: string, b: Building, again: Building)
    requires RegistryInvariant.Valid(r) && ConnectionOf(r, name, b).1.Ok?
    ensures var (r1, res) := ConnectionOf(r, name, b);
            ConnectionOf(r1, name, again) == (r1, res)
  {
    ConnectionResult(r, name, b);
  }

  /** The registry the constructor builds is a valid one, with every
      configured name registered and nothing connected. */
  lemma RegisteredValid(connections: map<string, Config>, names: set<string>, order: seq<string>)
    requires names <= connections.Keys && Distinct(order) && forall n :: n in order <==> n in names
    ensures var r := Model.Registry(RegisteredSlots(connections, names), order, {}, {}, [], 0);
            RegistryInvariant.Valid(r) && forall n :: !IsConnected(r, n)
  {
  }

  class Elasticsearch {
    const config: ElasticConfig
    const manager: ConnectionManager
    const primaryConnectionName: string

    ghost predicate Valid()
      reads this, manager
    {
      manager.Valid()
    }

    /** Every configured name is registered, `registered` and without a
        connection; nothing else is in the manager. */
    constructor (config: ElasticConfig)
      ensures fresh(manager) && Valid()
      ensures primaryConnectionName == config.connection && this.config == config
      ensures manager.slots == RegisteredSlots(config.connections, config.connections.Keys)
      ensures Distinct(manager.order) && forall m :: m in manager.order <==> m in config.connections
      ensures manager.orphans == {} && manager.pending == {} && manager.events == []
    {
      this.config := config;
      manager := new ConnectionManager();
      primaryConnectionName := config.connection;
      new;
      RegisterConnections();
      RegisteredValid(config.connections, config.connections.Keys, manager.order);
    }

    /** registerConnections: every configured name is added, in turn. */
    method RegisterConnections()
      requires manager.State() == Empty
      modifies manager
      ensures manager.State()
           == Model.Registry(RegisteredSlots(config.connections, config.connections.Keys), manager.order, {}, {}, [], 0)
      ensures Distinct(manager.order) && forall m :: m in manager.order <==> m in config.connections
    {
      var rest := config.connections.Keys;
      while rest != {}
        invariant rest <= config.connections.Keys
        invariant Distinct(manager.order) && forall m :: m in manager.order <==> m in config.connections.Keys - rest
        invariant manager.State()
               == Model.Registry(RegisteredSlots(config.connections, config.connections.Keys - rest), manager.order, {}, {}, [], 0)
        decreases rest
      {
        var n :| n in rest;
        assert config.connections.Keys - (rest - {n}) == (config.connections.Keys - rest) + {n};
        Register(n, config.connections.Keys - rest);
        rest := rest - {n};
      }
    }

    /** One step of registerConnections: `name` joins the names `done`
        already registered. */
    method Register(name: string, ghost done: set<string>)
      requires name in config.connections && name !in done && done <= config.connections.Keys
      requires Distinct(manager.order) && forall m :: m in manager.order <==> m in done
      requires manager.State() == Model.Registry(RegisteredSlots(config.connections, done), manager.order, {}, {}, [], 0)
      modifies manager
      ensures manager.order == old(manager.order) + [name] && Distinct(manager.order)
      ensures manager.State()
           == Model.Registry(RegisteredSlots(config.connections, done + {name}), manager.order, {}, {}, [], 0)
    {
      RegisteredValid(config.connections, done, manager.order);
      RegisteredSlotsGrow(config.connections, done, name);
      manager.Add(name, config.connections[name]);
    }

    /** The manager's slot, as it is: nothing is created. */
    function GetRawConnection(name: string): (s: Option<Slot>)
      reads this, manager
      ensures s == Get(manager.State(), name)
    {
      manager.Get(name)
    }

    /** `b` is what building the client does, if connect needs one. */
    method Connection(b: Building, name: string := primaryConnectionName) returns (res: Result<Client>)
      requires Valid()
      modifies manager
      ensures Valid()
      ensures (manager.State(), res) == ConnectionOf(old(manager.State()), name, b)
    {
      var st := manager.Connect(name, b);
      if st.Raised? {
        return Err(st.error);
      }
      var raw := GetRawConnection(name);
      if raw.Some? && raw.value.connection.Some? && raw.value.connection.value.client.Some? {
        return Ok(raw.value.connection.value.client.value);
      }
      return Err(RuntimeException("Cannot get connection for " + name));
    }

    method Client(b: Building) returns (res: Result<Client>)
      requires Valid()
      modifies manager
      ensures Valid()
      ensures (manager.State(), res) == ConnectionOf(old(manager.State()), primaryConnectionName, b)
    {
      res := Connection(b);
    }

    /** close without release. */
    method Close(k: Closing, name: string := primaryConnectionName) returns (st: Status)
      requires Valid()
      modifies manager
      ensures Valid()
      ensures (manager.State(), st) == Model.Close(old(manager.State()), name, false, k)
    {
      st := manager.Close(name, false, k);
    }

    /** closeAll without release: every registered name survives. */
    method CloseAll(closer: string -> Closing) returns (st: Status)
      requires Valid()
      modifies manager
      ensures Valid()
      ensures (manager.State(), st) == Model.CloseAll(old(manager.State()), false, closer)
      ensures manager.slots.Keys == old(manager.slots.Keys) && manager.order == old(manager.order)
    {
      ghost var r := manager.State();
      st := manager.CloseAll(false, closer);
      RegistryInvariant.CloseEachValid(r, r.order, false, closer);
      KeysAfterCloseAll(r, closer);
    }

    method Release(k: Closing, name: string := primaryConnectionName) returns (st: Status)
      requires Valid()
      modifies manager
      ensures Valid()
      ensures (manager.State(), st) == Model.Release(old(manager.State()), name, k)
    {
      st := manager.Release(name, k);
    }
  }

  /** closeAll without release keeps every registered name. */
  lemma KeysAfterCloseAll(r: Registry, closer: string -> Closing)
    requires RegistryInvariant.Valid(r)
    ensures CloseAll(r, false, closer).0.slots.Keys == r.slots.Keys
    ensures CloseAll(r, false, closer).0.order == r.order
  {
    Lifecycle.CloseAllEffect(r, false, closer);
  }
}
