/** The state and the operations of ConnectionManager
    (src/connection/manager.ts) as values: each operation is a function from
    the registry before the call to the registry after it, together with how
    the call ended. The class in manager.dfy is proved to implement them.

    The listeners the manager attaches to every Connection it creates
    (monitorConnection) are applied at the point where that Connection emits,
    because an event emitter calls its listeners synchronously. */
module Registry {
  import opened Types
  import opened Connections

  /** ConnectionNode: one named entry of the registry. */
  datatype Slot = Slot(name: string, config: Config, connection: Option<ConnValue>, state: SlotState)

  /** What the manager broadcasts on the application's event channel. */
  datatype MgrEvent =
    | EsConnect(conn: ConnValue)                // 'es:connection:connect'
    | EsDisconnect(conn: ConnValue)             // 'es:connection:disconnect'
    | EsError(fault: Fault, conn: ConnValue)    // 'es:connection:error'

  /** The manager's fields. `order` is the insertion order of the `connections`
      Map, which is the order its keys are listed in. `pending` holds the
      orphans whose disconnect, started by `patch` and not awaited, has not
      settled yet. `nextId` is the identity the next Connection gets. */
  datatype Registry = Registry(
    slots: map<string, Slot>,
    order: seq<string>,
    orphans: set<ConnValue>,
    pending: set<ConnValue>,
    events: seq<MgrEvent>,
    nextId: ConnId)

  /** A new manager. */
  const Empty: Registry := Registry(map[], [], {}, {}, [], 0)

  // ---------------------------------------------------------------- queries

  function Get(r: Registry, name: string): Option<Slot>
  {
    if name in r.slots then Some(r.slots[name]) else None
  }

  predicate Has(r: Registry, name: string)
  {
    name in r.slots
  }

  /** A slot holds a connection and its state is `open`. */
  predicate SlotConnected(s: Slot)
  {
    s.connection.Some? && s.state == Open
  }

  predicate IsConnected(r: Registry, name: string)
  {
    Has(r, name) && SlotConnected(r.slots[name])
  }

  /** A slot holds a connection whose client has been constructed. */
  predicate SlotLive(s: Slot)
  {
    s.connection.Some? && s.connection.value.Ready()
  }

  /** No name is listed twice. */
  predicate Distinct(s: seq<string>)
  {
    forall i, j :: 0 <= i < j < |s| ==> s[i] != s[j]
  }

  /** `s` without every occurrence of `x` (deleting a key of the Map): the
      other names stay, in their order, and a list without `x` is kept as
      it is. */
  function Without(s: seq<string>, x: string): (t: seq<string>)
    ensures forall y :: y in t <==> y in s && y != x
    ensures |t| <= |s|
    ensures x !in s ==> t == s
    ensures Distinct(s) ==> Distinct(t)
  {
    if s == [] then []
    else if s[0] == x then DistinctTail(s); Without(s[1..], x)
    else
      DistinctTail(s);
      var rest := Without(s[1..], x);
      if Distinct(s) then DistinctCons(s[0], rest); [s[0]] + rest else [s[0]] + rest
  }

  lemma DistinctTail(s: seq<string>)
    requires s != []
    ensures Distinct(s) ==> Distinct(s[1..]) && s[0] !in s[1..]
  {
    if Distinct(s) {
      forall i, j | 0 <= i < j < |s[1..]|
        ensures s[1..][i] != s[1..][j]
      {
        assert s[1..][i] == s[i + 1] && s[1..][j] == s[j + 1];
      }
    }
  }

  lemma DistinctCons(a: string, t: seq<string>)
    requires a !in t && Distinct(t)
    ensures Distinct([a] + t)
  {
    forall i, j | 0 <= i < j < |[a] + t|
      ensures ([a] + t)[i] != ([a] + t)[j]
    {
      if i > 0 {
        assert ([a] + t)[i] == t[i - 1];
      }
      assert ([a] + t)[j] == t[j - 1];
    }
  }

  // --------------------------------------------------------------- listeners

  /** handleConnect: the slot is found by the connection's NAME; whether it
      still holds this very instance is not checked. */
  function HandleConnect(r: Registry, c: ConnValue): Registry
  {
    if c.name !in r.slots then r
    else r.(events := r.events + [EsConnect(c)],
            slots := r.slots[c.name := r.slots[c.name].(state := Open)])
  }

  /** handleDisconnect: an orphan is only dropped from the orphan set and
      announced; otherwise the slot of that name, if any, loses its
      connection and becomes `closed`. */
  function HandleDisconnect(r: Registry, c: ConnValue): Registry
  {
    if c in r.orphans then
      r.(orphans := r.orphans - {c}, events := r.events + [EsDisconnect(c)])
    else if c.name !in r.slots then r
    else r.(events := r.events + [EsDisconnect(c)],
            slots := r.slots[c.name := r.slots[c.name].(connection := None, state := Closed)])
  }

  /** The listener the manager has for an event, if any. There is none for
      'disconnect:error'. */
  function Deliver(r: Registry, e: ConnEvent): Registry
  {
    match e
    case Connected(c) => HandleConnect(r, c)
    case Disconnected(c) => HandleDisconnect(r, c)
    case Errored(f, c) => r.(events := r.events + [EsError(f, c)])
    case DisconnectErrored(_, _) => r
  }

  /** Listeners never add or remove a slot, never touch the key order or the
      pending disconnects, and never allocate a Connection. */
  function DeliverAll(r: Registry, es: seq<ConnEvent>): (r': Registry)
    ensures r'.slots.Keys == r.slots.Keys
    ensures r'.order == r.order && r'.pending == r.pending && r'.nextId == r.nextId
    decreases |es|
  {
    if es == [] then r else DeliverAll(Deliver(r, es[0]), es[1..])
  }

  // -------------------------------------------------------------- operations

  /** add: first registration wins. */
  function Add(r: Registry, name: string, config: Config): Registry
  {
    if Has(r, name) then r
    else r.(slots := r.slots[name := Slot(name, config, None, Registered)],
            order := r.order + [name])
  }

  /** connect: a new Connection (with a fresh identity) is stored on the slot
      and then asked to connect. The slot holds that very instance, so it sees
      the client the call stores. A failure is rethrown after the listeners
      have run. Connecting never adds or removes a slot. */
  function Connect(r: Registry, name: string, b: Building): (res: (Registry, Status))
    ensures res.0.slots.Keys == r.slots.Keys && res.0.order == r.order
  {
    if name !in r.slots then (r, Raised(Unmanaged(name)))
    else if IsConnected(r, name) then (r, Done)
    else
      var slot := r.slots[name];
      var step := ConnectStep(ConnValue(r.nextId, slot.name, slot.config, None), b);
      var r1 := r.(nextId := r.nextId + 1,
                   slots := r.slots[name := slot.(connection := Some(step.conn))]);
      (DeliverAll(r1, step.emitted),
       if step.thrown.Some? then Raised(ClientFailure(step.thrown.value)) else Done)
  }

  /** patch: an unknown name is added. Otherwise the current connection, if
      any, becomes an orphan and its disconnect is started without being
      awaited (only a connection with a client has one to finish); the slot's
      connection is cleared at once, its config replaced, its state
      `migrating`. */
  function Patch(r: Registry, name: string, config: Config): Registry
  {
    if name !in r.slots then Add(r, name, config)
    else
      var slot := r.slots[name];
      var r1 := if slot.connection.None? then r
                else r.(orphans := r.orphans + {slot.connection.value},
                        pending := if slot.connection.value.Ready()
                                   then r.pending + {slot.connection.value} else r.pending);
      r1.(slots := r1.slots[name := slot.(state := Migrating, config := config, connection := None)])
  }

  /** The un-awaited disconnect of orphan `c`, started by patch, settles.
      What it throws reaches no caller. */
  function SettleOrphan(r: Registry, c: ConnValue, k: Closing): Registry
    requires c in r.pending
  {
    DeliverAll(r.(pending := r.pending - {c}), DisconnectStep(c, k).emitted)
  }

  function CloseRank(r: Registry, name: string, isRelease: bool): nat
  {
    if IsConnected(r, name) then (if isRelease then 3 else 2)
    else (if isRelease then 0 else 1)
  }

  /** close: only a connected slot is disconnected, and the call waits for
      it. During that wait the disconnect listener clears the connection and
      sets `closed`; afterwards `close` sets `closing`. A failed disconnect is
      rethrown and skips the release. */
  function Close(r: Registry, name: string, release: bool, k: Closing): (Registry, Status)
    decreases CloseRank(r, name, false)
  {
    var (r1, st) :=
      if !IsConnected(r, name) then (r, Done)
      else
        var d := DisconnectStep(r.slots[name].connection.value, k);
        var r2 := DeliverAll(r, d.emitted);
        if d.thrown.Some? then (r2, Raised(ClientFailure(d.thrown.value)))
        else (r2.(slots := r2.slots[name := r2.slots[name].(state := Closing)]), Done);
    if st.Raised? || !release then (r1, st)
    else Release(r1, name, k)
  }

  /** release: a connected slot is closed with release; any other slot is
      deleted straight away. */
  function Release(r: Registry, name: string, k: Closing): (Registry, Status)
    decreases CloseRank(r, name, true)
  {
    if IsConnected(r, name) then Close(r, name, true, k)
    else (r.(slots := r.slots - {name}, order := Without(r.order, name)), Done)
  }

  /** The closes `closeAll` starts, one per name of the key snapshot. Every
      close runs, whatever the others do; the first failure is reported. */
  function CloseEach(r: Registry, names: seq<string>, release: bool, closer: string -> Closing): (Registry, Status)
    decreases |names|
  {
    if names == [] then (r, Done)
    else
      var (r1, s1) := Close(r, names[0], release, closer(names[0]));
      var (r2, s2) := CloseEach(r1, names[1..], release, closer);
      (r2, if s1.Raised? then s1 else s2)
  }

  /** closeAll over the keys the registry holds when it is called. */
  function CloseAll(r: Registry, release: bool, closer: string -> Closing): (Registry, Status)
  {
    CloseEach(r, r.order, release, closer)
  }
}
