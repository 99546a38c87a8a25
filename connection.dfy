/** One Connection instance (src/connection/index.ts): it owns at most one
    external client and reports what happens to it through the events it
    emits. `ConnectStep` and `DisconnectStep` say what one call of
    `connect()` and `disconnect()` does; the class `Connection` is proved to
    do exactly that, and the manager applies the same two functions to the
    connections it owns. */
module Connections {
  import opened Types

  /** The fields of a Connection. `id` stands for the object's identity:
      two instances never share one. */
  datatype ConnValue = ConnValue(id: ConnId, name: string, config: Config, client: Option<Client>) {
    /** The `ready` getter: a client has been constructed. */
    predicate Ready() { client.Some? }
  }

  /** What a Connection emits; every event carries the emitting instance. */
  datatype ConnEvent =
    | Connected(conn: ConnValue)                        // 'connect'
    | Errored(fault: Fault, conn: ConnValue)            // 'error'
    | Disconnected(conn: ConnValue)                     // 'disconnect'
    | DisconnectErrored(fault: Fault, conn: ConnValue)  // 'disconnect:error'

  /** The effect of one call: the instance afterwards, the events it emitted
      in order, and the exception it threw, if any. */
  datatype Step = Step(conn: ConnValue, emitted: seq<ConnEvent>, thrown: Option<Fault>)

  /** `connect()`: build a client from the config. On success the client is
      stored and one `connect` event follows; on failure nothing is stored,
      one `error` event carries the exception and the exception is rethrown. */
  function ConnectStep(c: ConnValue, b: Building): (s: Step)
    ensures s.conn.id == c.id && s.conn.name == c.name && s.conn.config == c.config
    ensures |s.emitted| == 1 && s.emitted[0].conn == s.conn
    ensures b.Builds? ==> s.conn.client == Some(b.client) && s.conn.Ready()
                          && s.emitted[0].Connected? && s.thrown == None
    ensures b.BuildFails? ==> s.conn == c && s.emitted[0] == Errored(b.fault, c)
                              && s.thrown == Some(b.fault)
  {
    match b
    case Builds(client) =>
      var c' := c.(client := Some(client));
      Step(c', [Connected(c')], None)
    case BuildFails(f) =>
      Step(c, [Errored(f, c)], Some(f))
  }

  /** `disconnect()`: without a client it returns at once and emits nothing.
      Otherwise it closes the client: on success one `disconnect` event, on
      failure one `disconnect:error` event and then the same exception is
      rethrown. The instance itself never changes: the client is not cleared. */
  function DisconnectStep(c: ConnValue, k: Closing): (s: Step)
    ensures s.conn == c
    ensures !c.Ready() ==> s.emitted == [] && s.thrown == None
    ensures c.Ready() ==> |s.emitted| == 1 && s.emitted[0].conn == c
    ensures c.Ready() && k.CloseOk? ==> s.emitted[0].Disconnected? && s.thrown == None
    ensures c.Ready() && k.CloseFails? ==>
              s.emitted[0] == DisconnectErrored(k.fault, c) && s.thrown == Some(k.fault)
  {
    if c.client.None? then Step(c, [], None)
    else
      match k
      case CloseOk => Step(c, [Disconnected(c)], None)
      case CloseFails(f) => Step(c, [DisconnectErrored(f, c)], Some(f))
  }

  /** A Connection's events are always about that Connection, and a call
      throws exactly when the last event it emitted is an error event. */
  lemma ThrowsIffErrorEmitted(c: ConnValue, b: Building, k: Closing)
    ensures var s := ConnectStep(c, b);
            s.thrown.Some? <==> s.emitted[|s.emitted| - 1].Errored?
    ensures var s := DisconnectStep(c, k);
            s.thrown.Some? <==> (s.emitted != [] && s.emitted[|s.emitted| - 1].DisconnectErrored?)
  {
  }

  /** `disconnect()` leaves `ready` as it was, and calling it again on the
      result behaves just like the first call. */
  lemma DisconnectRepeatable(c: ConnValue, k: Closing)
    ensures DisconnectStep(c, k).conn.Ready() == c.Ready()
    ensures DisconnectStep(DisconnectStep(c, k).conn, k) == DisconnectStep(c, k)
  {
  }

  class Connection {
    const id: ConnId
    const name: string
    const config: Config
    var client: Option<Client>
    /** What `this.emit(...)` has sent so far, in order. */
    var emitted: seq<ConnEvent>

    function Value(): ConnValue
      reads this
    {
      ConnValue(id, name, config, client)
    }

    /** A new Connection has no client and is not ready. */
    constructor (id: ConnId, name: string, config: Config)
      ensures Value() == ConnValue(id, name, config, None)
      ensures !Value().Ready() && emitted == []
    {
      this.id := id;
      this.name := name;
      this.config := config;
      client := None;
      emitted := [];
    }

    method Connect(b: Building) returns (thrown: Option<Fault>)
      modifies this
      ensures var s := ConnectStep(old(Value()), b);
              Value() == s.conn && emitted == old(emitted) + s.emitted && thrown == s.thrown
    {
      match b
      case Builds(h) =>
        client := Some(h);
        emitted := emitted + [Connected(Value())];
        thrown := None;
      case BuildFails(f) =>
        emitted := emitted + [Errored(f, Value())];
        thrown := Some(f);
    }

    method Disconnect(k: Closing) returns (thrown: Option<Fault>)
      modifies this
      ensures var s := DisconnectStep(old(Value()), k);
              Value() == s.conn && emitted == old(emitted) + s.emitted && thrown == s.thrown
    {
      thrown := None;
      if client.None? {
        return;
      }
      match k
      case CloseOk =>
        emitted := emitted + [Disconnected(Value())];
      case CloseFails(f) =>
        emitted := emitted + [DisconnectErrored(f, Value())];
        thrown := Some(f);
    }
  }
}
