/** Shared value types: the shapes of src/types/elasticsearch.ts and the two
    error templates of src/errors.ts. The external Elasticsearch client is
    abstract: a client handle is only an identity, a client option blob is
    only a value, and what the client library does when asked to build or
    close a handle is an oracle value handed in by the caller. */
module Types {

  datatype Option<+T> = None | Some(value: T)

  /** ClientOptions: the configuration blob a client is built from. The core
      never looks inside it. */
  datatype Config = Config(options: string)

  /** A handle to a constructed external client. */
  datatype Client = Client(handle: nat)

  /** An exception thrown by the external client library. */
  datatype Fault = Fault(message: string)

  /** Identity of one Connection instance (JavaScript object identity). */
  type ConnId = nat

  /** ConnectionNode.state. */
  datatype SlotState = Registered | Migrating | Open | Closing | Closed

  /** What `new Client(config)` does: it yields a handle or throws. */
  datatype Building = Builds(client: Client) | BuildFails(fault: Fault)

  /** What `client.close()` does: it resolves or rejects. */
  datatype Closing = CloseOk | CloseFails(fault: Fault)

  /** The errors the core raises or lets through. */
  datatype EsError =
    | Unmanaged(name: string)          // E_UNMANAGED_ELASTICSEARCH_CONNECTION
    | ClientFailure(fault: Fault)      // an external client error, rethrown unchanged
    | RuntimeException(text: string)   // `new Error(...)` raised by the facade

  /** How an operation that returns nothing ends: normally or by a throw. */
  datatype Status = Done | Raised(error: EsError)

  /** How an operation that returns a value ends. */
  datatype Result<+T> = Ok(value: T) | Err(error: EsError)

  /** The message an error carries, after the `%s` template of src/errors.ts
      has been filled in. */
  function Message(e: EsError): string
  {
    match e
    case Unmanaged(name) => "Unmanaged elasticsearch connection " + name
    case ClientFailure(f) => f.message
    case RuntimeException(text) => text
  }
}
