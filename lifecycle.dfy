/** What the manager's operations promise, stated over the functional model
    in registry.dfy, and the invariant of registry_invariant.dfy carried
    through any sequence of operations. */
module Lifecycle {
  import opened Types
  import opened Connections
  import opened Registry
  import opened RegistryInvariant

  // -------------------------------------------------------------------- add

  /** add is first-write-wins: a known name leaves the registry as it is; an
      unknown one gets exactly one new `registered` slot without a
      connection, and no other slot changes. */
  lemma AddFirstWriteWins(r: Registry, name: string, first: Config, later: Config)
    ensures Has(r, name) ==> Add(r, name, first) == r
    ensures !Has(r, name) ==> Get(Add(r, name, first), name) == Some(Slot(name, first, None, Registered))
    ensures Add(Add(r, name, first), name, later) == Add(r, name, first)
    ensures forall m :: m != name ==> Get(Add(r, name, first), m) == Get(r, m)
    ensures Add(r, name, first).slots.Keys == r.slots.Keys + {name}
    ensures Add(r, name, first).events == r.events && Add(r, name, first).orphans == r.orphans
    ensures Add(r, name, first).order == if Has(r, name) then r.order else r.order + [name]
  {
  }

  // ---------------------------------------------------------------- connect

  /** connect on an unregistered name throws the unmanaged-connection error
      carrying that name and changes nothing. */
  lemma ConnectUnknown(r: Registry, name: string, b: Building)
    requires !Has(r, name)
    ensures Connect(r, name, b) == (r, Raised(Unmanaged(name)))
    ensures Message(Connect(r, name, b).1.error) == "Unmanaged elasticsearch connection " + name
  {
  }

  /** connect on a connected name is a no-op: the slot keeps the same
      instance and no event is broadcast. */
  lemma ConnectWhenConnected(r: Registry, name: string, b: Building)
    requires IsConnected(r, name)
    ensures Connect(r, name, b) == (r, Done)
  {
  }

  /** connect whose client is built: the slot holds a new instance with a
      fresh identity and the client, it is `open` and connected, exactly one
      connect event about that instance is broadcast, and nothing else
      changes. */
  lemma ConnectBuilt(r: Registry, name: string, client: Client)
    requires Valid(r) && Has(r, name) && !IsConnected(r, name)
    ensures var (r', st) := Connect(r, name, Builds(client));
            var c := ConnValue(r.nextId, name, r.slots[name].config, Some(client));
            && st == Done && IsConnected(r', name)
            && r'.slots[name].connection == Some(c)
            && (r.slots[name].connection.Some? ==> c.id != r.slots[name].connection.value.id)
            && r'.slots[name].state == Open
            && r'.events == r.events + [EsConnect(c)]
            && r'.orphans == r.orphans && r'.pending == r.pending
            && (forall m :: m != name ==> Get(r', m) == Get(r, m))
  {
    ConnectEffect(r, name, Builds(client));
  }

  /** connect whose client fails to build: one error event carrying the
      failure and the new instance is broadcast, the failure is rethrown,
      the slot keeps the new client-less instance and its previous state,
      and so it is not connected. */
  lemma ConnectFailed(r: Registry, name: string, f: Fault)
    requires Valid(r) && Has(r, name) && !IsConnected(r, name)
    ensures var (r', st) := Connect(r, name, BuildFails(f));
            var c := ConnValue(r.nextId, name, r.slots[name].config, None);
            && st == Raised(ClientFailure(f))
            && r'.slots[name] == r.slots[name].(connection := Some(c))
            && !c.Ready() && !IsConnected(r', name)
            && r'.events == r.events + [EsError(f, c)]
            && r'.orphans == r.orphans
            && (forall m :: m != name ==> Get(r', m) == Get(r, m))
  {
    ConnectEffect(r, name, BuildFails(f));
  }

  /** Under the invariant, connect returns normally exactly when the name is
      connected afterwards, and then the slot's connection has a client. A
      second connect is then a no-op whatever the client would do. */
  lemma ConnectReturnsConnected(r: Registry, name: string, b: Building, again: Building)
    requires Valid(r)
    ensures var (r', st) := Connect(r, name, b);
            && (st.Done? <==> IsConnected(r', name))
            && (st.Done? ==> SlotLive(r'.slots[name]))
            && (st.Done? ==> Connect(r', name, again) == (r', Done))
            && (st.Raised? ==> (st.error == Unmanaged(name) && !Has(r, name)) ||
                               (b.BuildFails? && st.error == ClientFailure(b.fault)))
  {
    ConnectedIffLive(r, name);
    if Has(r, name) && !IsConnected(r, name) {
      assert r.slots[name].state != Open;
      ConnectEffect(r, name, b);
    }
  }

  // ------------------------------------------------------------------ patch

  /** patch on an unknown name is add. On a known one the current
      connection, if any, becomes an orphan (its disconnect pending when it
      has a client), the slot loses it at once, takes the new config and is
      `migrating`; no other slot changes and nothing is broadcast. */
  lemma PatchEffect(r: Registry, name: string, config: Config)
    ensures !Has(r, name) ==> Patch(r, name, config) == Add(r, name, config)
    ensures Has(r, name) ==>
              var r' := Patch(r, name, config);
              var old_ := r.slots[name];
              && r'.slots == r.slots[name := old_.(config := config, state := Migrating, connection := None)]
              && r'.orphans == (if old_.connection.Some? then r.orphans + {old_.connection.value} else r.orphans)
              && r'.pending == (if SlotLive(old_) then r.pending + {old_.connection.value} else r.pending)
              && r'.events == r.events && r'.nextId == r.nextId && r'.order == r.order
  {
  }

  /** The reconfiguration scenario: a connected name is patched, connected
      again, and ends up with a new instance built from the new config, while
      the old instance waits in the orphan set. */
  lemma PatchThenConnect(r: Registry, name: string, config: Config, client: Client)
    requires Valid(r) && IsConnected(r, name)
    ensures var oldConn := r.slots[name].connection.value;
            var r1 := Patch(r, name, config);
            var (r2, st) := Connect(r1, name, Builds(client));
            && !IsConnected(r1, name) && r1.slots[name].state == Migrating
            && oldConn in r1.pending
            && st == Done && IsConnected(r2, name)
            && r2.slots[name].connection.value.config == config
            && r2.slots[name].connection.value.id != oldConn.id
            && oldConn in r2.orphans
  {
    var r1 := Patch(r, name, config);
    PatchValid(r, name, config);
    ConnectEffect(r1, name, Builds(client));
  }

  // ----------------------------------------------------- orphan disconnects

  /** When an orphan's pending disconnect succeeds, the orphan leaves the
      orphan set and one disconnect event about it is broadcast; no slot is
      touched. When it fails, nothing is broadcast (there is no listener for
      'disconnect:error') and the orphan stays in the orphan set. */
  lemma OrphanSettles(r: Registry, c: ConnValue, k: Closing)
    requires Valid(r) && c in r.pending
    ensures var r' := SettleOrphan(r, c, k);
            && r'.slots == r.slots && c !in r'.pending
            && (k.CloseOk? ==> c !in r'.orphans && r'.events == r.events + [EsDisconnect(c)])
            && (k.CloseFails? ==> c in r'.orphans && r'.events == r.events)
  {
    SettleOrphanEffect(r, c, k);
  }

  /** handleConnect finds the slot by name only: a connect event from any
      instance with that name opens the slot, whichever instance the slot
      holds. */
  lemma HandleConnectByName(r: Registry, c: ConnValue)
    ensures c.name !in r.slots ==> HandleConnect(r, c) == r
    ensures c.name in r.slots ==>
              var r' := HandleConnect(r, c);
              && r'.slots == r.slots[c.name := r.slots[c.name].(state := Open)]
              && r'.events == r.events + [EsConnect(c)]
              && r'.order == r.order && r'.orphans == r.orphans && r'.pending == r.pending
              && r'.nextId == r.nextId
  {
  }

  /** handleDisconnect tests the orphan set by instance, and only then the
      slots by name. An orphan leaves the orphan set and is announced, and
      no slot changes. Any other instance with a registered name is
      announced, and it clears that slot's connection and sets `closed`,
      whichever instance the slot holds. An instance whose name has no slot
      changes nothing. */
  lemma HandleDisconnectByName(r: Registry, c: ConnValue)
    ensures c in r.orphans ==>
              HandleDisconnect(r, c) == r.(orphans := r.orphans - {c}, events := r.events + [EsDisconnect(c)])
    ensures c !in r.orphans && c.name !in r.slots ==> HandleDisconnect(r, c) == r
    ensures c !in r.orphans && c.name in r.slots ==>
              var r' := HandleDisconnect(r, c);
              && r'.slots == r.slots[c.name := r.slots[c.name].(connection := None, state := Closed)]
              && r'.events == r.events + [EsDisconnect(c)]
              && r'.order == r.order && r'.orphans == r.orphans && r'.pending == r.pending
              && r'.nextId == r.nextId
  {
  }

  // ------------------------------------------------------- close and release

  /** close of a name that is not connected does nothing. */
  lemma CloseUnconnected(r: Registry, name: string, k: Closing)
    requires !IsConnected(r, name)
    ensures Close(r, name, false, k) == (r, Done)
  {
  }

  /** close of a connected name whose client closes: the slot stays, loses
      its connection and ends `closing` (not `closed`: the disconnect
      listener sets `closed` while close waits, then close overwrites it),
      and exactly one disconnect event is broadcast. */
  lemma CloseLeavesClosing(r: Registry, name: string)
    requires Valid(r) && IsConnected(r, name)
    ensures var (r', st) := Close(r, name, false, CloseOk);
            && st == Done && Has(r', name) && !IsConnected(r', name)
            && r'.slots[name] == r.slots[name].(connection := None, state := Closing)
            && r'.events == r.events + [EsDisconnect(r.slots[name].connection.value)]
            && (forall m :: m != name ==> Get(r', m) == Get(r, m))
            && r'.order == r.order
  {
    CloseConnected(r, name, false, CloseOk);
  }

  /** close of a connected name whose client fails to close rethrows the
      failure and leaves everything as it was, still connected. */
  lemma CloseFailure(r: Registry, name: string, release: bool, f: Fault)
    requires Valid(r) && IsConnected(r, name)
    ensures Close(r, name, release, CloseFails(f)) == (r, Raised(ClientFailure(f)))
  {
    CloseConnected(r, name, release, CloseFails(f));
  }

  /** release removes the name, connected or not. The only exception is a
      connected name whose client fails to close: then the failure is
      rethrown and nothing changes. No other slot is touched. */
  lemma ReleaseRemoves(r: Registry, name: string, k: Closing)
    requires Valid(r)
    ensures var (r', st) := Release(r, name, k);
            && (st.Done? <==> !Has(r', name))
            && (st.Raised? ==> IsConnected(r, name) && k.CloseFails? && r' == r)
            && (!IsConnected(r, name) || k.CloseOk? ==> st.Done?)
            && (forall m :: m != name ==> Get(r', m) == Get(r, m))
  {
    if IsConnected(r, name) {
      CloseConnected(r, name, true, k);
    } else {
      ReleaseUnconnected(r, name, k);
    }
  }

  // --------------------------------------------------------------- closeAll

  /** The slot a close leaves, when there is no release. */
  function AfterClose(s: Slot, k: Closing): Slot
  {
    if SlotConnected(s) && k.CloseOk? then s.(connection := None, state := Closing) else s
  }

  /** A close with release keeps the slot only when its disconnect fails. */
  predicate KeptByRelease(s: Slot, k: Closing)
  {
    SlotConnected(s) && k.CloseFails?
  }

  /** Everything one close does to one name, in slot terms. */
  lemma CloseSlot(r: Registry, name: string, release: bool, k: Closing)
    requires Valid(r)
    ensures var (r', st) := Close(r, name, release, k);
            && Valid(r')
            && (forall m :: m != name ==> Get(r', m) == Get(r, m))
            && (name !in r.slots ==> name !in r'.slots)
            && (name in r.slots ==>
                  if release && !KeptByRelease(r.slots[name], k) then name !in r'.slots
                  else name in r'.slots && r'.slots[name] == AfterClose(r.slots[name], k))
            && (st.Raised? <==> IsConnected(r, name) && k.CloseFails?)
            && (IsConnected(r', name) <==> IsConnected(r, name) && k.CloseFails?)
  {
    CloseValid(r, name, release, k);
    CloseSlotFrame(r, name, release, k);
    CloseSlotOutcome(r, name, release, k);
  }

  /** One close touches no other slot. */
  lemma CloseSlotFrame(r: Registry, name: string, release: bool, k: Closing)
    requires Valid(r)
    ensures var r' := Close(r, name, release, k).0;
            forall m :: m != name ==> Get(r', m) == Get(r, m)
  {
    if IsConnected(r, name) {
      CloseConnected(r, name, release, k);
    } else if release {
      ReleaseUnconnected(r, name, k);
    }
  }

  /** What one close does to the named slot, and how it ends. */
  lemma CloseSlotOutcome(r: Registry, name: string, release: bool, k: Closing)
    requires Valid(r)
    ensures var (r', st) := Close(r, name, release, k);
            && (name !in r.slots ==> name !in r'.slots)
            && (name in r.slots ==>
                  if release && !KeptByRelease(r.slots[name], k) then name !in r'.slots
                  else name in r'.slots && r'.slots[name] == AfterClose(r.slots[name], k))
            && (st.Raised? <==> IsConnected(r, name) && k.CloseFails?)
            && (IsConnected(r', name) <==> IsConnected(r, name) && k.CloseFails?)
  {
    if IsConnected(r, name) {
      CloseConnected(r, name, release, k);
    } else if release {
      ReleaseUnconnected(r, name, k);
    }
  }

  /** One close, for the key order: only a deleted name leaves it. */
  lemma CloseSlotOrder(r: Registry, name: string, release: bool, k: Closing)
    requires Valid(r)
    ensures var r' := Close(r, name, release, k).0;
            && (!release ==> r'.order == r.order)
            && (release ==> r'.order == if name in r'.slots then r.order else Without(r.order, name))
  {
    if IsConnected(r, name) {
      CloseConnected(r, name, release, k);
    } else if release {
      ReleaseUnconnected(r, name, k);
    }
  }

  /** closeAll closes every name of the snapshot, each independently of how
      the others end: without release every slot survives, a connected one
      whose client closes ends `closing` without its connection, any other
      is unchanged; with release only the connected slots whose client fails
      to close survive, unchanged. The call fails exactly when one of those
      closes fails. */
  lemma CloseEachEffect(r: Registry, names: seq<string>, release: bool, closer: string -> Closing)
    requires Valid(r)
    ensures var (r', st) := CloseEach(r, names, release, closer);
            && Valid(r')
            && (forall m :: m !in names ==> Get(r', m) == Get(r, m))
            && r'.slots.Keys <= r.slots.Keys
            && (forall m :: m in names && m in r.slots ==>
                  if release && !KeptByRelease(r.slots[m], closer(m)) then m !in r'.slots
                  else m in r'.slots && r'.slots[m] == AfterClose(r.slots[m], closer(m)))
            && (st.Raised? <==> exists m :: m in names && IsConnected(r, m) && closer(m).CloseFails?)
  {
    CloseEachOutside(r, names, release, closer);
    CloseEachKeys(r, names, release, closer);
    CloseEachSlots(r, names, release, closer);
    CloseEachStatus(r, names, release, closer);
  }

  /** The names of `s` that are in `keep`, in their order in `s`. */
  function Kept(s: seq<string>, keep: set<string>): (t: seq<string>)
    ensures forall y :: y in t <==> y in s && y in keep
    decreases |s|
  {
    if s == [] then []
    else if s[0] in keep then [s[0]] + Kept(s[1..], keep)
    else Kept(s[1..], keep)
  }

  /** Deleting a key keeps the other keys in their order. */
  lemma {:induction false} WithoutConcat(a: seq<string>, b: seq<string>, x: string)
    ensures Without(a + b, x) == Without(a, x) + Without(b, x)
    decreases |a|
  {
    if a == [] {
      assert a + b == b;
    } else {
      assert (a + b)[0] == a[0] && (a + b)[1..] == a[1..] + b;
      WithoutConcat(a[1..], b, x);
    }
  }

  lemma {:induction false} WithoutIsKept(s: seq<string>, x: string, keys: set<string>)
    requires forall y :: y in s ==> y in keys
    ensures Without(s, x) == Kept(s, keys - {x})
    decreases |s|
  {
    if s != [] {
      WithoutIsKept(s[1..], x, keys);
    }
  }

  lemma {:induction false} KeptEverything(s: seq<string>, keys: set<string>)
    requires forall y :: y in s ==> y in keys
    ensures Kept(s, keys) == s
    decreases |s|
  {
    if s != [] {
      KeptEverything(s[1..], keys);
    }
  }

  lemma {:induction false} KeptTwice(s: seq<string>, k1: set<string>, k2: set<string>)
    requires k2 <= k1
    ensures Kept(Kept(s, k1), k2) == Kept(s, k2)
    decreases |s|
  {
    if s != [] {
      KeptTwice(s[1..], k1, k2);
      if s[0] in k1 {
        assert Kept(s, k1)[0] == s[0] && Kept(s, k1)[1..] == Kept(s[1..], k1);
      }
    }
  }

  /** After one close, the key order is the old one restricted to the
      surviving keys. */
  lemma CloseOrder(r: Registry, n: string, release: bool, k: Closing)
    requires Valid(r)
    ensures var r1 := Close(r, n, release, k).0;
            r1.order == Kept(r.order, r1.slots.Keys)
  {
    var r1 := Close(r, n, release, k).0;
    CloseSlot(r, n, release, k);
    CloseSlotOrder(r, n, release, k);
    if n in r1.slots || !release {
      assert r1.slots.Keys == r.slots.Keys by {
        forall m | m in r.slots ensures m in r1.slots {
          if m != n { assert Get(r1, m) == Get(r, m); }
        }
        forall m | m in r1.slots ensures m in r.slots {
          if m != n { assert Get(r1, m) == Get(r, m); }
        }
      }
      KeptEverything(r.order, r.slots.Keys);
    } else {
      assert r1.slots.Keys == r.slots.Keys - {n} by {
        forall m | m in r.slots && m != n ensures m in r1.slots {
          assert Get(r1, m) == Get(r, m);
        }
        forall m | m in r1.slots ensures m in r.slots && m != n {
          assert Get(r1, m) == Get(r, m);
        }
      }
      WithoutIsKept(r.order, n, r.slots.Keys);
    }
  }

  /** After closing names, the surviving keys keep their order. */
  lemma {:induction false} CloseEachOrder(r: Registry, names: seq<string>, release: bool, closer: string -> Closing)
    requires Valid(r)
    ensures var r' := CloseEach(r, names, release, closer).0;
            r'.order == Kept(r.order, r'.slots.Keys)
    decreases |names|
  {
    if names == [] {
      KeptEverything(r.order, r.slots.Keys);
    } else {
      var n := names[0];
      var r1 := Close(r, n, release, closer(n)).0;
      var r2 := CloseEach(r1, names[1..], release, closer).0;
      CloseOrder(r, n, release, closer(n));
      CloseValid(r, n, release, closer(n));
      CloseEachOrder(r1, names[1..], release, closer);
      CloseEachKeys(r1, names[1..], release, closer);
      KeptTwice(r.order, r1.slots.Keys, r2.slots.Keys);
    }
  }

  /** closeAll keeps the surviving keys in their order; without release it
      keeps the key order as it is. */
  lemma CloseAllOrder(r: Registry, release: bool, closer: string -> Closing)
    requires Valid(r)
    ensures var r' := CloseAll(r, release, closer).0;
            && r'.order == Kept(r.order, r'.slots.Keys)
            && (!release ==> r'.order == r.order)
  {
    CloseEachOrder(r, r.order, release, closer);
    if !release {
      var r' := CloseAll(r, release, closer).0;
      CloseEachEffect(r, r.order, release, closer);
      assert forall y :: y in r.order ==> y in r'.slots;
      KeptEverything(r.order, r'.slots.Keys);
    }
  }

  /** A second close of the same name changes nothing more. */
  lemma AfterCloseStable(s: Slot, k: Closing)
    ensures AfterClose(AfterClose(s, k), k) == AfterClose(s, k)
    ensures KeptByRelease(s, k) ==> AfterClose(s, k) == s
  {
  }

  lemma {:induction false} CloseEachOutside(r: Registry, names: seq<string>, release: bool, closer: string -> Closing)
    requires Valid(r)
    ensures var r' := CloseEach(r, names, release, closer).0;
            && Valid(r')
            && (forall m :: m !in names ==> Get(r', m) == Get(r, m))
    decreases |names|
  {
    if names != [] {
      var n := names[0];
      var r1 := Close(r, n, release, closer(n)).0;
      CloseSlot(r, n, release, closer(n));
      CloseEachOutside(r1, names[1..], release, closer);
      assert CloseEach(r, names, release, closer).0 == CloseEach(r1, names[1..], release, closer).0;
    }
  }

  /** closeAll never registers a name. */
  lemma {:induction false} CloseEachKeys(r: Registry, names: seq<string>, release: bool, closer: string -> Closing)
    requires Valid(r)
    ensures CloseEach(r, names, release, closer).0.slots.Keys <= r.slots.Keys
    decreases |names|
  {
    if names != [] {
      var n := names[0];
      var r1 := Close(r, n, release, closer(n)).0;
      CloseSlot(r, n, release, closer(n));
      assert r1.slots.Keys <= r.slots.Keys by {
        forall m | m in r1.slots ensures m in r.slots {
          if m != n {
            assert Get(r1, m) == Get(r, m);
          }
        }
      }
      CloseEachKeys(r1, names[1..], release, closer);
    }
  }

  lemma {:induction false} CloseEachSlots(r: Registry, names: seq<string>, release: bool, closer: string -> Closing)
    requires Valid(r)
    ensures var r' := CloseEach(r, names, release, closer).0;
            forall m :: m in names && m in r.slots ==>
              if release && !KeptByRelease(r.slots[m], closer(m)) then m !in r'.slots
              else m in r'.slots && r'.slots[m] == AfterClose(r.slots[m], closer(m))
    decreases |names|
  {
    if names != [] {
      var n := names[0];
      var r1 := Close(r, n, release, closer(n)).0;
      CloseSlot(r, n, release, closer(n));
      CloseEachSlots(r1, names[1..], release, closer);
      CloseEachKeys(r1, names[1..], release, closer);
      CloseEachOutside(r1, names[1..], release, closer);
      var r' := CloseEach(r, names, release, closer).0;
      assert r' == CloseEach(r1, names[1..], release, closer).0;
      forall m | m in names && m in r.slots
        ensures if release && !KeptByRelease(r.slots[m], closer(m)) then m !in r'.slots
                else m in r'.slots && r'.slots[m] == AfterClose(r.slots[m], closer(m))
      {
        AfterCloseStable(r.slots[m], closer(m));
        if m != n {
          assert m in names[1..];
          assert Get(r1, m) == Get(r, m);
        } else if m !in names[1..] {
          assert Get(r', m) == Get(r1, m);
        }
      }
    }
  }

  lemma {:induction false} CloseEachStatus(r: Registry, names: seq<string>, release: bool, closer: string -> Closing)
    requires Valid(r)
    ensures CloseEach(r, names, release, closer).1.Raised? <==>
              exists m :: m in names && IsConnected(r, m) && closer(m).CloseFails?
    decreases |names|
  {
    if names != [] {
      var n := names[0];
      var (r1, s1) := Close(r, n, release, closer(n));
      CloseSlot(r, n, release, closer(n));
      CloseEachStatus(r1, names[1..], release, closer);
      var s2 := CloseEach(r1, names[1..], release, closer).1;
      assert CloseEach(r, names, release, closer).1 == if s1.Raised? then s1 else s2;
      if s2.Raised? && !s1.Raised? {
        var m :| m in names[1..] && IsConnected(r1, m) && closer(m).CloseFails?;
        if m != n {
          assert Get(r1, m) == Get(r, m);
        }
        assert m in names && IsConnected(r, m);
      }
      if !s1.Raised? && !s2.Raised? {
        forall m | m in names
          ensures !(IsConnected(r, m) && closer(m).CloseFails?)
        {
          if m != n {
            assert m in names[1..];
            assert Get(r1, m) == Get(r, m);
          }
        }
      }
    }
  }

  /** closeAll as called: over the registered names in key order. */
  lemma CloseAllEffect(r: Registry, release: bool, closer: string -> Closing)
    requires Valid(r)
    ensures var (r', st) := CloseAll(r, release, closer);
            && Valid(r')
            && (!release ==> r'.slots.Keys == r.slots.Keys)
            && (forall m :: m in r.slots ==>
                  if release && !KeptByRelease(r.slots[m], closer(m)) then m !in r'.slots
                  else m in r'.slots && r'.slots[m] == AfterClose(r.slots[m], closer(m)))
            && (forall m :: m in r'.slots ==> m in r.slots)
            && (st.Raised? <==> exists m :: m in r.slots && IsConnected(r, m) && closer(m).CloseFails?)
            && r'.order == Kept(r.order, r'.slots.Keys)
            && (!release ==> r'.order == r.order)
  {
    CloseEachValid(r, r.order, release, closer);
    CloseAllSlots(r, release, closer);
    CloseAllStatus(r, release, closer);
    CloseAllOrder(r, release, closer);
  }

  lemma CloseAllSlots(r: Registry, release: bool, closer: string -> Closing)
    requires Valid(r)
    ensures var r' := CloseAll(r, release, closer).0;
            && (!release ==> r'.slots.Keys == r.slots.Keys)
            && (forall m :: m in r.slots ==>
                  if release && !KeptByRelease(r.slots[m], closer(m)) then m !in r'.slots
                  else m in r'.slots && r'.slots[m] == AfterClose(r.slots[m], closer(m)))
            && (forall m :: m in r'.slots ==> m in r.slots)
  {
    CloseEachKeys(r, r.order, release, closer);
    CloseEachSlots(r, r.order, release, closer);
  }

  lemma CloseAllStatus(r: Registry, release: bool, closer: string -> Closing)
    requires Valid(r)
    ensures CloseAll(r, release, closer).1.Raised? <==>
              exists m :: m in r.slots && IsConnected(r, m) && closer(m).CloseFails?
  {
    CloseEachStatus(r, r.order, release, closer);
  }

  // --------------------------------------------- any sequence of operations

  /** One call into the manager. `SettleOp` is the completion of an orphan
      disconnect that patch started and did not await. */
  datatype Op =
    | AddOp(name: string, config: Config)
    | ConnectOp(name: string, building: Building)
    | PatchOp(name: string, config: Config)
    | CloseOp(name: string, release: bool, closing: Closing)
    | CloseAllOp(release: bool, closer: string -> Closing)
    | ReleaseOp(name: string, closing: Closing)
    | SettleOp(orphan: ConnValue, closing: Closing)

  function Apply(r: Registry, op: Op): Registry
  {
    match op
    case AddOp(name, config) => Add(r, name, config)
    case ConnectOp(name, b) => Connect(r, name, b).0
    case PatchOp(name, config) => Patch(r, name, config)
    case CloseOp(name, release, k) => Close(r, name, release, k).0
    case CloseAllOp(release, closer) => CloseAll(r, release, closer).0
    case ReleaseOp(name, k) => Release(r, name, k).0
    case SettleOp(c, k) => if c in r.pending then SettleOrphan(r, c, k) else r
  }

  function Run(r: Registry, ops: seq<Op>): Registry
    decreases |ops|
  {
    if ops == [] then r else Run(Apply(r, ops[0]), ops[1..])
  }

  lemma ApplyValid(r: Registry, op: Op)
    requires Valid(r)
    ensures Valid(Apply(r, op))
  {
    match op
    case AddOp(name, config) => AddValid(r, name, config);
    case ConnectOp(name, b) => ConnectValid(r, name, b);
    case PatchOp(name, config) => PatchValid(r, name, config);
    case CloseOp(name, release, k) => CloseValid(r, name, release, k);
    case CloseAllOp(release, closer) => CloseEachValid(r, r.order, release, closer);
    case ReleaseOp(name, k) => ReleaseValid(r, name, k);
    case SettleOp(c, k) => if c in r.pending { SettleOrphanValid(r, c, k); }
  }

  /** Every registry the manager can reach keeps the invariant. */
  lemma {:induction false} RunValid(r: Registry, ops: seq<Op>)
    requires Valid(r)
    ensures Valid(Run(r, ops))
    decreases |ops|
  {
    if ops != [] {
      ApplyValid(r, ops[0]);
      RunValid(Apply(r, ops[0]), ops[1..]);
    }
  }

  /** Orphans that nothing will ever remove: no disconnect of theirs is
      pending (they had no client, or their disconnect failed). */
  function Stuck(r: Registry): set<ConnValue>
  {
    r.orphans - r.pending
  }

  /** close and release never touch the orphans or their pending
      disconnects. */
  lemma CloseKeepsOrphans(r: Registry, name: string, release: bool, k: Closing)
    requires Valid(r)
    ensures Close(r, name, release, k).0.orphans == r.orphans
    ensures Close(r, name, release, k).0.pending == r.pending
  {
    if IsConnected(r, name) {
      CloseConnected(r, name, release, k);
    } else if release {
      ReleaseUnconnected(r, name, k);
    }
  }

  lemma {:induction false} CloseEachKeepsOrphans(r: Registry, names: seq<string>, release: bool, closer: string -> Closing)
    requires Valid(r)
    ensures CloseEach(r, names, release, closer).0.orphans == r.orphans
    ensures CloseEach(r, names, release, closer).0.pending == r.pending
    decreases |names|
  {
    if names != [] {
      var n := names[0];
      CloseKeepsOrphans(r, n, release, closer(n));
      CloseValid(r, n, release, closer(n));
      CloseEachKeepsOrphans(Close(r, n, release, closer(n)).0, names[1..], release, closer);
    }
  }

  /** No operation frees a stuck orphan: only the settling of a pending
      disconnect removes an orphan, and an orphan never becomes pending
      again. */
  lemma StuckGrows(r: Registry, op: Op)
    requires Valid(r)
    ensures Stuck(r) <= Stuck(Apply(r, op))
  {
    match op
    case AddOp(_, _) =>
    case ConnectOp(name, b) =>
      if Has(r, name) && !IsConnected(r, name) {
        ConnectEffect(r, name, b);
      }
    case PatchOp(name, config) =>
      if Has(r, name) && r.slots[name].connection.Some? {
        assert r.slots[name].connection.value !in r.orphans;
      }
    case CloseOp(name, release, k) => CloseKeepsOrphans(r, name, release, k);
    case CloseAllOp(release, closer) => CloseEachKeepsOrphans(r, r.order, release, closer);
    case ReleaseOp(name, k) =>
      if IsConnected(r, name) {
        CloseKeepsOrphans(r, name, true, k);
      }
    case SettleOp(c, k) =>
      if c in r.pending {
        SettleOrphanEffect(r, c, k);
      }
  }

  /** An orphan without a pending disconnect stays in the orphan set for
      good, whatever the manager does afterwards. */
  lemma {:induction false} StuckStays(r: Registry, ops: seq<Op>)
    requires Valid(r)
    ensures Stuck(r) <= Stuck(Run(r, ops))
    decreases |ops|
  {
    if ops != [] {
      StuckGrows(r, ops[0]);
      ApplyValid(r, ops[0]);
      StuckStays(Apply(r, ops[0]), ops[1..]);
    }
  }

  /** In every registry reachable from a new manager: no connection instance
      is announced as disconnected twice; an orphan is never the connection
      of a slot; two slots never share an instance; and a name is connected
      exactly when its slot holds a connection with a client. */
  lemma Reachable(ops: seq<Op>)
    ensures var r := Run(Empty, ops);
            && (forall i, j :: 0 <= i < j < |r.events| && r.events[i].EsDisconnect? && r.events[j].EsDisconnect? ==>
                  r.events[i].conn.id != r.events[j].conn.id)
            && (forall n, o :: n in r.slots && r.slots[n].connection.Some? && o in r.orphans ==>
                  r.slots[n].connection.value.id != o.id)
            && (forall n, m :: n in r.slots && m in r.slots && n != m && r.slots[n].connection.Some? ==>
                  r.slots[m].connection != r.slots[n].connection)
            && (forall n :: IsConnected(r, n) <==> Has(r, n) && SlotLive(r.slots[n]))
  {
    EmptyValid();
    RunValid(Empty, ops);
  }
}
