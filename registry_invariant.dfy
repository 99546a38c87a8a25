/** The invariant every registry reachable through the manager's operations
    keeps, and the proof that each operation keeps it. Among other things it
    says that a connection instance is owned by at most one slot or by the
    orphan set, never by both, that `isConnected` means the slot holds a
    connection with a client, and that no instance is ever announced as
    disconnected twice. */
module RegistryInvariant {
  import opened Types
  import opened Connections
  import opened Registry

  /** Every slot is filed under its own name, and so is its connection. */
  ghost predicate Named(r: Registry)
  {
    forall n :: n in r.slots ==>
      r.slots[n].name == n &&
      (r.slots[n].connection.Some? ==> r.slots[n].connection.value.name == n)
  }

  /** The key order lists exactly the registered names, each once. */
  ghost predicate Ordered(r: Registry)
  {
    Distinct(r.order) && forall n :: n in r.order <==> n in r.slots
  }

  /** A slot is `open` exactly when it holds a connection with a client. */
  ghost predicate OpenIffLive(r: Registry)
  {
    forall n :: n in r.slots ==> (r.slots[n].state == Open <==> SlotLive(r.slots[n]))
  }

  /** Every identity in use was handed out before `nextId`. */
  ghost predicate IdsBelow(r: Registry)
  {
    && (forall n :: n in r.slots && r.slots[n].connection.Some? ==> r.slots[n].connection.value.id < r.nextId)
    && (forall o :: o in r.orphans ==> o.id < r.nextId)
    && (forall i :: 0 <= i < |r.events| ==> r.events[i].conn.id < r.nextId)
  }

  /** A connection instance has exactly one owner: one slot, or the orphan set. */
  ghost predicate Exclusive(r: Registry)
  {
    && (forall n, m ::
          (n in r.slots && m in r.slots && n != m &&
           r.slots[n].connection.Some? && r.slots[m].connection.Some?) ==>
          r.slots[n].connection.value.id != r.slots[m].connection.value.id)
    && (forall n, o :: n in r.slots && r.slots[n].connection.Some? && o in r.orphans ==>
                      r.slots[n].connection.value.id != o.id)
    && (forall o, p :: o in r.orphans && p in r.orphans && o.id == p.id ==> o == p)
  }

  /** Only orphans with a client have an unsettled disconnect. */
  ghost predicate PendingOrphans(r: Registry)
  {
    r.pending <= r.orphans && forall o :: o in r.pending ==> o.Ready()
  }

  /** No instance is announced as disconnected twice, and an instance still
      owned by a slot or by the orphan set has not been announced at all. */
  ghost predicate DisconnectOnce(r: Registry)
  {
    && (forall i, j :: 0 <= i < j < |r.events| && r.events[i].EsDisconnect? && r.events[j].EsDisconnect? ==>
                      r.events[i].conn.id != r.events[j].conn.id)
    && (forall i, n ::
          (0 <= i < |r.events| && r.events[i].EsDisconnect? &&
           n in r.slots && r.slots[n].connection.Some?) ==>
          r.slots[n].connection.value.id != r.events[i].conn.id)
    && (forall i, o :: 0 <= i < |r.events| && r.events[i].EsDisconnect? && o in r.orphans ==>
                      o.id != r.events[i].conn.id)
  }

  /** The invariant, in four groups that are proved separately. */
  ghost predicate Shape(r: Registry)
  {
    Named(r) && Ordered(r) && OpenIffLive(r)
  }

  ghost predicate Tracked(r: Registry)
  {
    IdsBelow(r) && PendingOrphans(r)
  }

  ghost predicate Valid(r: Registry)
  {
    Shape(r) && Tracked(r) && Exclusive(r) && DisconnectOnce(r)
  }

  /** Under the invariant, `isConnected` means: the slot holds a connection
      and that connection has a client. */
  lemma ConnectedIffLive(r: Registry, name: string)
    requires Valid(r)
    ensures IsConnected(r, name) <==> Has(r, name) && SlotLive(r.slots[name])
    ensures IsConnected(r, name) ==> Get(r, name).Some? && Get(r, name).value.state == Open
  {
  }

  lemma EmptyValid()
    ensures Valid(Empty)
  {
  }

  lemma DeliverNone(r: Registry)
    ensures DeliverAll(r, []) == r
  {
  }

  lemma DeliverOne(r: Registry, e: ConnEvent)
    ensures DeliverAll(r, [e]) == Deliver(r, e)
  {
    assert [e][1..] == [];
  }


  // ------------------------------------------- the registry after each step

  /** After `connect` of a registered, unconnected name whose client is built. */
  function Opened(r: Registry, name: string, client: Client): Registry
    requires name in r.slots
  {
    var c := ConnValue(r.nextId, name, r.slots[name].config, Some(client));
    r.(nextId := r.nextId + 1,
       slots := r.slots[name := r.slots[name].(connection := Some(c), state := Open)],
       events := r.events + [EsConnect(c)])
  }

  /** After `connect` of a registered, unconnected name whose client fails to build. */
  function FailedOpen(r: Registry, name: string, f: Fault): Registry
    requires name in r.slots
  {
    var c := ConnValue(r.nextId, name, r.slots[name].config, None);
    r.(nextId := r.nextId + 1,
       slots := r.slots[name := r.slots[name].(connection := Some(c))],
       events := r.events + [EsError(f, c)])
  }

  /** After `close` of a connected name whose client closes. */
  function Detached(r: Registry, name: string): Registry
    requires IsConnected(r, name)
  {
    r.(events := r.events + [EsDisconnect(r.slots[name].connection.value)],
       slots := r.slots[name := r.slots[name].(connection := None, state := Closing)])
  }

  /** After the pending disconnect of orphan `c` succeeds. */
  function Settled(r: Registry, c: ConnValue): Registry
  {
    r.(pending := r.pending - {c}, orphans := r.orphans - {c}, events := r.events + [EsDisconnect(c)])
  }

  // ------------------------------------------------------------ the effects

  /** Under the invariant, what `connect` does to a registered name that is
      not connected: a new instance with the next identity is stored; if its
      client is built the slot is `open` and one connect event is broadcast;
      if not, the slot keeps the client-less instance and its state, one
      error event is broadcast and the failure is rethrown. */
  lemma ConnectEffect(r: Registry, name: string, b: Building)
    requires Valid(r) && name in r.slots && !IsConnected(r, name)
    ensures Connect(r, name, b) ==
              match b
              case Builds(cl) => (Opened(r, name, cl), Done)
              case BuildFails(f) => (FailedOpen(r, name, f), Raised(ClientFailure(f)))
  {
    var slot := r.slots[name];
    assert slot.name == name;
    var step := ConnectStep(ConnValue(r.nextId, slot.name, slot.config, None), b);
    var r1 := r.(nextId := r.nextId + 1,
                 slots := r.slots[name := slot.(connection := Some(step.conn))]);
    assert step.emitted == [step.emitted[0]];
    DeliverOne(r1, step.emitted[0]);
    match b
    case Builds(cl) =>
      assert HandleConnect(r1, step.conn) == Opened(r, name, cl);
    case BuildFails(f) =>
      assert r1.(events := r1.events + [EsError(f, step.conn)]) == FailedOpen(r, name, f);
  }

  /** Under the invariant, the disconnect of the connection a slot owns: the
      instance is announced once, the slot loses it and becomes `closed`. */
  lemma DisconnectOwned(r: Registry, name: string)
    requires Valid(r) && IsConnected(r, name)
    ensures var c := r.slots[name].connection.value;
            HandleDisconnect(r, c) ==
              r.(events := r.events + [EsDisconnect(c)],
                 slots := r.slots[name := r.slots[name].(connection := None, state := Closed)])
  {
    assert r.slots[name].connection.value !in r.orphans;
  }

  lemma ReleaseUnconnected(r: Registry, name: string, k: Closing)
    requires !IsConnected(r, name)
    ensures Release(r, name, k) == (r.(slots := r.slots - {name}, order := Without(r.order, name)), Done)
  {
  }

  /** Under the invariant, what `close` does to a connected name. A failed
      client close changes nothing at all: the manager has no listener for
      'disconnect:error'. */
  lemma CloseConnected(r: Registry, name: string, release: bool, k: Closing)
    requires Valid(r) && IsConnected(r, name)
    ensures Close(r, name, release, k) ==
              if k.CloseFails? then (r, Raised(ClientFailure(k.fault)))
              else if release then
                (Detached(r, name).(slots := r.slots - {name}, order := Without(r.order, name)), Done)
              else (Detached(r, name), Done)
  {
    if k.CloseFails? {
      CloseFailing(r, name, release, k.fault);
    } else {
      CloseSucceeding(r, name);
      if release {
        ReleaseUnconnected(Detached(r, name), name, k);
        assert Detached(r, name).slots - {name} == r.slots - {name};
      }
    }
  }

  lemma CloseFailing(r: Registry, name: string, release: bool, f: Fault)
    requires IsConnected(r, name) && SlotLive(r.slots[name])
    ensures Close(r, name, release, CloseFails(f)) == (r, Raised(ClientFailure(f)))
  {
    var c := r.slots[name].connection.value;
    var d := DisconnectStep(c, CloseFails(f));
    assert d.emitted == [DisconnectErrored(f, c)];
    DeliverOne(r, d.emitted[0]);
  }

  /** The part of `close` up to the release, when the client closes. */
  lemma CloseSucceeding(r: Registry, name: string)
    requires Valid(r) && IsConnected(r, name)
    ensures Close(r, name, false, CloseOk) == (Detached(r, name), Done)
    ensures Close(r, name, true, CloseOk) == Release(Detached(r, name), name, CloseOk)
  {
    var c := r.slots[name].connection.value;
    assert c.Ready();
    var d := DisconnectStep(c, CloseOk);
    assert d.emitted == [Disconnected(c)];
    DeliverOne(r, d.emitted[0]);
    DisconnectOwned(r, name);
    var r2 := HandleDisconnect(r, c);
    assert r2.(slots := r2.slots[name := r2.slots[name].(state := Closing)]) == Detached(r, name);
  }

  /** Under the invariant, the settling of a pending orphan disconnect. */
  lemma SettleOrphanEffect(r: Registry, c: ConnValue, k: Closing)
    requires Valid(r) && c in r.pending
    ensures SettleOrphan(r, c, k) ==
              if k.CloseOk? then Settled(r, c) else r.(pending := r.pending - {c})
  {
    var d := DisconnectStep(c, k);
    assert d.emitted == [d.emitted[0]];
    DeliverOne(r.(pending := r.pending - {c}), d.emitted[0]);
  }

  // ------------------------------------------------- the invariant is kept

  lemma AddValid(r: Registry, name: string, config: Config)
    requires Valid(r)
    ensures Valid(Add(r, name, config))
  {
    AddShape(r, name, config);
    AddRest(r, name, config);
  }

  lemma AddShape(r: Registry, name: string, config: Config)
    requires Valid(r)
    ensures Shape(Add(r, name, config)) && Tracked(Add(r, name, config))
  {
  }

  lemma AddRest(r: Registry, name: string, config: Config)
    requires Valid(r)
    ensures Exclusive(Add(r, name, config)) && DisconnectOnce(Add(r, name, config))
  {
  }

  lemma OpenedValid(r: Registry, name: string, client: Client)
    requires Valid(r) && name in r.slots && !IsConnected(r, name)
    ensures Valid(Opened(r, name, client))
  {
    OpenedShape(r, name, client);
    OpenedTracked(r, name, client);
    OpenedExclusive(r, name, client);
    OpenedOnce(r, name, client);
  }

  lemma OpenedShape(r: Registry, name: string, client: Client)
    requires Valid(r) && name in r.slots && !IsConnected(r, name)
    ensures Shape(Opened(r, name, client))
  {
  }

  lemma OpenedTracked(r: Registry, name: string, client: Client)
    requires Valid(r) && name in r.slots && !IsConnected(r, name)
    ensures Tracked(Opened(r, name, client))
  {
  }

  lemma OpenedExclusive(r: Registry, name: string, client: Client)
    requires Valid(r) && name in r.slots && !IsConnected(r, name)
    ensures Exclusive(Opened(r, name, client))
  {
  }

  lemma OpenedOnce(r: Registry, name: string, client: Client)
    requires Valid(r) && name in r.slots && !IsConnected(r, name)
    ensures DisconnectOnce(Opened(r, name, client))
  {
  }

  lemma FailedOpenValid(r: Registry, name: string, f: Fault)
    requires Valid(r) && name in r.slots && !IsConnected(r, name)
    ensures Valid(FailedOpen(r, name, f))
  {
    FailedOpenShape(r, name, f);
    FailedOpenTracked(r, name, f);
    FailedOpenExclusive(r, name, f);
    FailedOpenOnce(r, name, f);
  }

  lemma FailedOpenShape(r: Registry, name: string, f: Fault)
    requires Valid(r) && name in r.slots && !IsConnected(r, name)
    ensures Shape(FailedOpen(r, name, f))
  {
  }

  lemma FailedOpenTracked(r: Registry, name: string, f: Fault)
    requires Valid(r) && name in r.slots && !IsConnected(r, name)
    ensures Tracked(FailedOpen(r, name, f))
  {
  }

  lemma FailedOpenExclusive(r: Registry, name: string, f: Fault)
    requires Valid(r) && name in r.slots && !IsConnected(r, name)
    ensures Exclusive(FailedOpen(r, name, f))
  {
  }

  lemma FailedOpenOnce(r: Registry, name: string, f: Fault)
    requires Valid(r) && name in r.slots && !IsConnected(r, name)
    ensures DisconnectOnce(FailedOpen(r, name, f))
  {
  }

  lemma ConnectValid(r: Registry, name: string, b: Building)
    requires Valid(r)
    ensures Valid(Connect(r, name, b).0)
  {
    if name in r.slots && !IsConnected(r, name) {
      ConnectEffect(r, name, b);
      match b
      case Builds(cl) => OpenedValid(r, name, cl);
      case BuildFails(f) => FailedOpenValid(r, name, f);
    }
  }

  lemma PatchValid(r: Registry, name: string, config: Config)
    requires Valid(r)
    ensures Valid(Patch(r, name, config))
  {
    if name in r.slots {
      PatchShape(r, name, config);
      PatchTracked(r, name, config);
      PatchExclusive(r, name, config);
      PatchOnce(r, name, config);
    } else {
      AddValid(r, name, config);
    }
  }

  lemma PatchShape(r: Registry, name: string, config: Config)
    requires Valid(r) && name in r.slots
    ensures Shape(Patch(r, name, config))
  {
  }

  lemma PatchTracked(r: Registry, name: string, config: Config)
    requires Valid(r) && name in r.slots
    ensures Tracked(Patch(r, name, config))
  {
  }

  lemma PatchExclusive(r: Registry, name: string, config: Config)
    requires Valid(r) && name in r.slots
    ensures Exclusive(Patch(r, name, config))
  {
  }

  lemma PatchOnce(r: Registry, name: string, config: Config)
    requires Valid(r) && name in r.slots
    ensures DisconnectOnce(Patch(r, name, config))
  {
  }

  lemma DetachedValid(r: Registry, name: string)
    requires Valid(r) && IsConnected(r, name)
    ensures Valid(Detached(r, name))
  {
    DetachedShape(r, name);
    DetachedTracked(r, name);
    DetachedExclusive(r, name);
    DetachedOnce(r, name);
  }

  lemma DetachedShape(r: Registry, name: string)
    requires Valid(r) && IsConnected(r, name)
    ensures Shape(Detached(r, name))
  {
  }

  lemma DetachedTracked(r: Registry, name: string)
    requires Valid(r) && IsConnected(r, name)
    ensures Tracked(Detached(r, name))
  {
  }

  lemma DetachedExclusive(r: Registry, name: string)
    requires Valid(r) && IsConnected(r, name)
    ensures Exclusive(Detached(r, name))
  {
  }

  lemma DetachedOnce(r: Registry, name: string)
    requires Valid(r) && IsConnected(r, name)
    ensures DisconnectOnce(Detached(r, name))
  {
  }

  lemma DeleteValid(r: Registry, name: string)
    requires Valid(r)
    ensures Valid(r.(slots := r.slots - {name}, order := Without(r.order, name)))
  {
  }

  lemma CloseValid(r: Registry, name: string, release: bool, k: Closing)
    requires Valid(r)
    ensures Valid(Close(r, name, release, k).0)
  {
    if !IsConnected(r, name) {
      if release {
        ReleaseUnconnected(r, name, k);
        DeleteValid(r, name);
      }
    } else if k.CloseFails? {
      CloseFailing(r, name, release, k.fault);
    } else {
      CloseSucceeding(r, name);
      DetachedValid(r, name);
      if release {
        ReleaseUnconnected(Detached(r, name), name, k);
        DeleteValid(Detached(r, name), name);
      }
    }
  }

  lemma ReleaseValid(r: Registry, name: string, k: Closing)
    requires Valid(r)
    ensures Valid(Release(r, name, k).0)
  {
    if IsConnected(r, name) {
      CloseValid(r, name, true, k);
    } else {
      ReleaseUnconnected(r, name, k);
      DeleteValid(r, name);
    }
  }

  lemma {:induction false} CloseEachValid(r: Registry, names: seq<string>, release: bool, closer: string -> Closing)
    requires Valid(r)
    ensures Valid(CloseEach(r, names, release, closer).0)
    decreases |names|
  {
    if names != [] {
      CloseValid(r, names[0], release, closer(names[0]));
      CloseEachValid(Close(r, names[0], release, closer(names[0])).0, names[1..], release, closer);
    }
  }

  lemma SettledValid(r: Registry, c: ConnValue)
    requires Valid(r) && c in r.pending
    ensures Valid(Settled(r, c))
  {
    SettledShape(r, c);
    SettledTracked(r, c);
    SettledExclusive(r, c);
    SettledOnce(r, c);
  }

  lemma SettledShape(r: Registry, c: ConnValue)
    requires Valid(r) && c in r.pending
    ensures Shape(Settled(r, c))
  {
  }

  lemma SettledTracked(r: Registry, c: ConnValue)
    requires Valid(r) && c in r.pending
    ensures Tracked(Settled(r, c))
  {
  }

  lemma SettledExclusive(r: Registry, c: ConnValue)
    requires Valid(r) && c in r.pending
    ensures Exclusive(Settled(r, c))
  {
  }

  lemma SettledOnce(r: Registry, c: ConnValue)
    requires Valid(r) && c in r.pending
    ensures DisconnectOnce(Settled(r, c))
  {
  }

  lemma SettleOrphanValid(r: Registry, c: ConnValue, k: Closing)
    requires Valid(r) && c in r.pending
    ensures Valid(SettleOrphan(r, c, k))
  {
    SettleOrphanEffect(r, c, k);
    if k.CloseOk? {
      SettledValid(r, c);
    }
  }
}
