/** The ConnectionManager class of src/connection/manager.ts. Its fields are
    those of the registry in registry.dfy; every method changes them in
    place and is proved to leave exactly the registry the matching function
    there computes, so the lemmas of lifecycle.dfy hold of every call. */
module Manager {
  import opened Types
  import opened Connections
  import opened Model = Registry
  import RegistryInvariant

  class ConnectionManager {
    /** The `connections` Map, its key order, and the `orphanConnections` Set. */
    var slots: map<string, Slot>
    var order: seq<string>
    var orphans: set<ConnValue>
    /** Orphans whose disconnect, started by `patch`, has not settled. */
    var pending: set<ConnValue>
    /** What has been broadcast on the application's event channel. */
    var events: seq<MgrEvent>
    /** The identity the next Connection gets. */
    var nextId: ConnId

    function State(): Registry
      reads this
    {
      Model.Registry(slots, order, orphans, pending, events, nextId)
    }

    ghost predicate Valid()
      reads this
    {
      RegistryInvariant.Valid(State())
    }

    /** A new manager holds no slot, no orphan and has broadcast nothing. */
    constructor ()
      ensures State() == Empty && Valid()
    {
      slots := map[];
      order := [];
      orphans := {};
      pending := {};
      events := [];
      nextId := 0;
      new;
      RegistryInvariant.EmptyValid();
    }

    // -------------------------------------------------------------- queries

    function Get(name: string): (s: Option<Slot>)
      reads this
      ensures s.Some? <==> name in slots
      ensures s.Some? ==> s.value == slots[name]
      ensures Valid() && s.Some? ==> s.value.name == name
    {
      Model.Get(State(), name)
    }

    function Has(name: string): (b: bool)
      reads this
      ensures b <==> Get(name).Some?
    {
      Model.Has(State(), name)
    }

    /** Under the invariant, a name is connected exactly when its slot holds
        a connection whose client has been constructed. */
    function IsConnected(name: string): (b: bool)
      reads this
      ensures b <==> Model.IsConnected(State(), name)
      ensures b ==> slots[name].connection.Some? && slots[name].state == Open
    {
      Model.IsConnected(State(), name)
    }

    // ------------------------------------------------------------ listeners

    method HandleConnect(c: ConnValue)
      modifies this
      ensures State() == Model.HandleConnect(old(State()), c)
    {
      if c.name !in slots {
        return;
      }
      events := events + [EsConnect(c)];
      slots := slots[c.name := slots[c.name].(state := Open)];
    }

    method HandleDisconnect(c: ConnValue)
      modifies this
      ensures State() == Model.HandleDisconnect(old(State()), c)
    {
      if c in orphans {
        orphans := orphans - {c};
        events := events + [EsDisconnect(c)];
        return;
      }
      if c.name !in slots {
        return;
      }
      events := events + [EsDisconnect(c)];
      slots := slots[c.name := slots[c.name].(connection := None, state := Closed)];
    }

    /** The listeners monitorConnection attaches, run when a Connection
        emits; 'disconnect:error' has none. */
    method Dispatch(e: ConnEvent)
      modifies this
      ensures State() == DeliverAll(old(State()), [e])
    {
      RegistryInvariant.DeliverOne(State(), e);
      match e
      case Connected(c) => HandleConnect(c);
      case Disconnected(c) => HandleDisconnect(c);
      case Errored(f, c) => events := events + [EsError(f, c)];
      case DisconnectErrored(_, _) =>
    }

    // ----------------------------------------------------------- operations

    method Add(name: string, config: Config)
      requires Valid()
      modifies this
      ensures Valid()
      ensures State() == Model.Add(old(State()), name, config)
    {
      RegistryInvariant.AddValid(State(), name, config);
      if Has(name) {
        return;
      }
      slots := slots[name := Slot(name, config, None, Registered)];
      order := order + [name];
    }

    /** `b` is what building the client from the slot's config does. */
    method Connect(name: string, b: Building) returns (st: Status)
      requires Valid()
      modifies this
      ensures Valid()
      ensures (State(), st) == Model.Connect(old(State()), name, b)
    {
      RegistryInvariant.ConnectValid(State(), name, b);
      if name !in slots {
        return Raised(Unmanaged(name));
      }
      if IsConnected(name) {
        return Done;
      }
      st := Instantiate(name, b);
    }

    /** A new Connection is stored on the slot, monitored, and asked to
        connect. */
    method Instantiate(name: string, b: Building) returns (st: Status)
      requires name in slots && !IsConnected(name)
      modifies this
      ensures (State(), st) == Model.Connect(old(State()), name, b)
    {
      ghost var r := State();
      var slot := slots[name];
      var conn := new Connection(nextId, slot.name, slot.config);
      nextId := nextId + 1;
      slots := slots[name := slot.(connection := Some(conn.Value()))];
      var thrown := conn.Connect(b);
      // the slot refers to that very instance, so it sees the new client
      slots := slots[name := slot.(connection := Some(conn.Value()))];
      ghost var step := ConnectStep(ConnValue(r.nextId, slot.name, slot.config, None), b);
      assert State() == r.(nextId := r.nextId + 1, slots := r.slots[name := slot.(connection := Some(step.conn))]);
      Dispatch(conn.emitted[0]);
      assert [conn.emitted[0]] == step.emitted;
      st := if thrown.Some? then Raised(ClientFailure(thrown.value)) else Done;
    }

    /** The disconnect patch starts is not awaited: it settles later through
        SettleOrphan. */
    method Patch(name: string, config: Config)
      requires Valid()
      modifies this
      ensures Valid()
      ensures State() == Model.Patch(old(State()), name, config)
    {
      RegistryInvariant.PatchValid(State(), name, config);
      if name !in slots {
        Add(name, config);
        return;
      }
      Migrate(name, config);
    }

    /** The slot's connection, if any, is handed to the orphan set, and the
        slot takes the new config. */
    method Migrate(name: string, config: Config)
      requires name in slots
      modifies this
      ensures State() == Model.Patch(old(State()), name, config)
    {
      var slot := slots[name];
      if slot.connection.Some? {
        orphans := orphans + {slot.connection.value};
        if slot.connection.value.Ready() {
          pending := pending + {slot.connection.value};
        }
      }
      slots := slots[name := slot.(state := Migrating, config := config, connection := None)];
    }

    /** The pending disconnect of orphan `c` settles, the client's close
        doing what `k` says. */
    method SettleOrphan(c: ConnValue, k: Closing)
      requires Valid() && c in pending
      modifies this
      ensures Valid()
      ensures State() == Model.SettleOrphan(old(State()), c, k)
    {
      RegistryInvariant.SettleOrphanValid(State(), c, k);
      pending := pending - {c};
      var d := DisconnectStep(c, k);
      if d.emitted == [] {
        RegistryInvariant.DeliverNone(State());
      } else {
        Dispatch(d.emitted[0]);
      }
    }

    /** `k` is what closing the slot's client does. */
    method Close(name: string, release: bool, k: Closing) returns (st: Status)
      requires Valid()
      modifies this
      ensures Valid()
      ensures (State(), st) == Model.Close(old(State()), name, release, k)
      decreases CloseRank(State(), name, false)
    {
      CloseUnfold(State(), name, release, k);
      st := Done;
      if IsConnected(name) {
        RegistryInvariant.CloseValid(State(), name, false, k);
        st := AwaitDisconnect(name, k);
        if st.Raised? || !release {
          return;
        }
      }
      if release {
        st := Release(name, k);
      }
    }

    /** The slot's connection is disconnected and close waits for it, the
        listeners running meanwhile; then the slot is `closing`. */
    method AwaitDisconnect(name: string, k: Closing) returns (st: Status)
      requires IsConnected(name)
      modifies this
      ensures (State(), st) == Model.Close(old(State()), name, false, k)
    {
      var d := DisconnectStep(slots[name].connection.value, k);
      if d.emitted == [] {
        RegistryInvariant.DeliverNone(State());
      } else {
        assert d.emitted == [d.emitted[0]];
        Dispatch(d.emitted[0]);
      }
      if d.thrown.Some? {
        return Raised(ClientFailure(d.thrown.value));
      }
      slots := slots[name := slots[name].(state := Closing)];
      st := Done;
    }

    method Release(name: string, k: Closing) returns (st: Status)
      requires Valid()
      modifies this
      ensures Valid()
      ensures (State(), st) == Model.Release(old(State()), name, k)
      decreases CloseRank(State(), name, true)
    {
      if IsConnected(name) {
        st := Close(name, true, k);
      } else {
        RegistryInvariant.ReleaseValid(State(), name, k);
        slots := slots - {name};
        order := Without(order, name);
        st := Done;
      }
    }

    /** closeAll: every name of the key snapshot is closed, whatever the
        other closes do; the first failure, in key order, is reported.
        `closer(n)` is what closing the client of `n` does. */
    method CloseAll(release: bool, closer: string -> Closing) returns (st: Status)
      requires Valid()
      modifies this
      ensures Valid()
      ensures (State(), st) == Model.CloseAll(old(State()), release, closer)
    {
      var names := order;
      ghost var r0 := State();
      st := Done;
      var i := 0;
      while i < |names|
        invariant 0 <= i <= |names| && Valid()
        invariant Joined(st, CloseEach(State(), names[i..], release, closer)) == CloseEach(r0, names, release, closer)
        decreases |names| - i
      {
        CloseEachUnfold(State(), names, i, release, closer);
        var s := Close(names[i], release, closer(names[i]));
        if st.Done? {
          st := s;
        }
        i := i + 1;
      }
      assert names[i..] == [];
    }
  }

  /** A close with release is the close without it, then the release,
      unless the close failed. */
  lemma CloseUnfold(r: Registry, name: string, release: bool, k: Closing)
    ensures var (r1, s1) := Close(r, name, false, k);
            Close(r, name, release, k) == if s1.Raised? || !release then (r1, s1) else Release(r1, name, k)
  {
  }

  lemma CloseEachUnfold(r: Registry, names: seq<string>, i: nat, release: bool, closer: string -> Closing)
    requires i < |names|
    ensures var (r1, s1) := Close(r, names[i], release, closer(names[i]));
            CloseEach(r, names[i..], release, closer) == Joined(s1, CloseEach(r1, names[i + 1..], release, closer))
  {
    assert names[i..][1..] == names[i + 1..];
  }

  /** A failure already seen takes precedence over how the rest ends. */
  function Joined(first: Status, rest: (Registry, Status)): (res: (Registry, Status))
    ensures res.1.Raised? <==> first.Raised? || rest.1.Raised?
  {
    (rest.0, if first.Raised? then first else rest.1)
  }
}
