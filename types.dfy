/**
 * Values shared by the router model: host names, the arguments and results
 * of forwarded driver calls, and the failures the router reports.
 */
module Types {

  /** A node is identified by the `hostspec` part of its DSN; "" means "no master yet". */
  type Host = string

  datatype Option<T> = None | Some(value: T)

  /** The error objects the router returns (PEAR_Error in the original). */
  datatype Failure =
    | NoMaster                     // a node was attached before the master
    | WeightNotNumeric
    | WeightNotPositive
    | NotSupported(name: string)
    | Driver(code: int)            // any error raised by a database driver
    | Store(code: int)             // any error raised by the cache handler

  /** What a forwarded call, a cache lookup or a router operation returns. */
  datatype Value =
    | Error(failure: Failure)
    | DbOk                         // the DB_OK constant
    | False                        // PHP false: what a cache handler returns on a miss
    | Null                         // PHP null
    | Data(id: int)                // any other result, left abstract

  /** A positional argument of a forwarded call. */
  datatype Arg = Nil | Flag(b: bool) | Num(n: int) | Text(s: string)

  /** The raw weight given to attachNode / attachMaster. */
  datatype WeightArg = Numeric(n: int) | NonNumeric

  /** A connection handle opened by the driver; never an error by construction. */
  datatype Conn = Conn(handle: int)

  /** The outcome of the driver's connect for one DSN. */
  datatype Connect = Connected(conn: Conn) | ConnectFailed(failure: Failure)

  /** The outcome of the driver's query on one node: an error or a result set. */
  datatype QueryResult = QueryError(failure: Failure) | ResultSet(handle: int, rows: nat)

  /** The cache key: the called function's name and its (prepared) arguments. */
  datatype CacheKey = CacheKey(name: string, args: seq<Arg>)

  /** The cache handler seen as a key/value store. */
  type CacheStore = map<CacheKey, Value>

  /**
   * The external collaborators, as oracles: the driver's statement classifier,
   * its query entry point and every other method the router forwards.
   */
  datatype Driver = Driver(
    isManip: string -> bool,
    query: (Host, string, seq<Arg>) -> QueryResult,
    call: (Host, string, seq<Arg>) -> Value)

  /** The random choices of weighted selection: rand(0, 100) and the array_rand index. */
  datatype Draw = Draw(rand: int, pick: nat)

  /** How the cache handler behaves on this call: a failing get, and whether save stores. */
  datatype CacheIO = CacheIO(getFailure: Option<Failure>, saved: bool)
}
