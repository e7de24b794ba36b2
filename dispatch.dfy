/**
 * The routing rules of the router: the mode flags, the two static tables,
 * the classification of forwarded method names, and where a call goes.
 */
module Dispatch {
  import opened Types
  import opened Weights
  import opened Selection

  const READ: int := 1
  const WRITE: int := 2
  const CACHE: int := 4
  const MASTER: int := 8

  /** The default fetch mode of the driver, put in place of a null fetch-mode argument. */
  const FETCHMODE_DEFAULT: int := 0

  /**
   * Whether the power-of-two `flag` is set in `mode`, as `$mode & FLAG` tests
   * it; HasBitIsAnd relates it to the bitwise and on the 64-bit word.
   */
  predicate HasBit(mode: int, flag: int)
    requires flag > 0
  {
    (mode / flag) % 2 == 1
  }

  /** For a mode in 0..2^63-1, HasBit on each flag is the bitwise and of the 64-bit word with it. */
  lemma HasBitIsAnd(mode: int)
    requires 0 <= mode < 0x8000_0000_0000_0000
    ensures HasBit(mode, READ) <==> (mode as bv64) & 1 != 0
    ensures HasBit(mode, WRITE) <==> (mode as bv64) & 2 != 0
    ensures HasBit(mode, CACHE) <==> (mode as bv64) & 4 != 0
    ensures HasBit(mode, MASTER) <==> (mode as bv64) & 8 != 0
  {
  }

  /** The statically known calls that record the node they ran on. */
  const QueryFunctions: seq<string> := ["getOne", "getCol", "getAll", "getRow", "limitQuery"]

  /**
   * The position of the mode argument, for the functions that take one; the
   * fetch-mode argument sits just before it.
   */
  function ModeKey(f: string): (k: Option<nat>)
    ensures k.Some? <==> f in ["getOne", "getCol", "getAll", "getRow", "getAssoc"]
    ensures k.Some? ==> 2 <= k.value <= 5
  {
    if f == "getOne" then Some(2)
    else if f == "getCol" || f == "getAll" || f == "getRow" then Some(3)
    else if f == "getAssoc" then Some(5)
    else None
  }

  /** The five kinds of forwarded call. */
  datatype Category = WeightedRead | MasterOnly | Broadcast | LastNode | Unsupported

  /** The case group of the dispatch switch that `f` falls into; any other name is unsupported. */
  function Classify(f: string): (c: Category)
    ensures c == WeightedRead <==>
      f in ["getOne", "getCol", "getAll", "getRow", "limitQuery", "quoteSmart", "getTables", "getAssoc"]
    ensures c == MasterOnly <==>
      f in ["prepare", "provides", "tableInfo", "getOption", "getListOf", "commit", "rollback"]
    ensures c == Broadcast <==> f in ["disconnect", "setOption", "setFetchMode"]
    ensures c == LastNode <==> f == "affectedRows"
  {
    if f in ["getOne", "getCol", "getAll", "getRow", "limitQuery", "quoteSmart", "getTables", "getAssoc"]
    then WeightedRead
    else if f in ["prepare", "provides", "tableInfo", "getOption", "getListOf", "commit", "rollback"]
    then MasterOnly
    else if f in ["disconnect", "setOption", "setFetchMode"] then Broadcast
    else if f == "affectedRows" then LastNode
    else Unsupported
  }

  /** The integer value a mode argument takes under `&`; non-numeric arguments count as 0. */
  function ModeOf(a: Arg): int {
    match a
    case Num(n) => n
    case Flag(b) => if b then 1 else 0
    case _ => 0
  }

  /**
   * The mode of a forwarded call: the argument at its mode position when it
   * is present and not null, MASTER otherwise.
   */
  function CallMode(f: string, args: seq<Arg>): (mode: int)
    ensures ModeKey(f).None? ==> mode == MASTER
    ensures ModeKey(f).Some? && (ModeKey(f).value >= |args| || args[ModeKey(f).value].Nil?) ==> mode == MASTER
    ensures ModeKey(f).Some? && ModeKey(f).value < |args| && !args[ModeKey(f).value].Nil?
      ==> mode == ModeOf(args[ModeKey(f).value])
  {
    match ModeKey(f)
    case None => MASTER
    case Some(k) => if k < |args| && !args[k].Nil? then ModeOf(args[k]) else MASTER
  }

  /**
   * The arguments actually forwarded: when a mode argument is given, a null
   * fetch-mode argument just before it becomes FETCHMODE_DEFAULT; nothing
   * else changes.
   */
  function Prepared(f: string, args: seq<Arg>): (a: seq<Arg>)
    ensures |a| == |args|
    ensures ModeKey(f).Some? && 0 < ModeKey(f).value < |args| ==>
      (!args[ModeKey(f).value].Nil? && args[ModeKey(f).value - 1].Nil? ==>
         a[ModeKey(f).value - 1] == Num(FETCHMODE_DEFAULT))
    ensures forall i :: 0 <= i < |a| && a[i] != args[i] ==>
      && args[i].Nil? && a[i] == Num(FETCHMODE_DEFAULT)
      && ModeKey(f) == Some(i + 1) && i + 1 < |args| && !args[i + 1].Nil?
  {
    match ModeKey(f)
    case None => args
    case Some(k) =>
      if 0 < k < |args| && !args[k].Nil? && args[k - 1].Nil?
      then args[k - 1 := Num(FETCHMODE_DEFAULT)]
      else args
  }

  /**
   * Whether query() sends a statement to the master: manipulation statements,
   * master-only state, and the WRITE or MASTER bit.
   */
  predicate ToMaster(manip: bool, masterOnly: bool, mode: int) {
    manip || masterOnly || HasBit(mode, MASTER) || HasBit(mode, WRITE)
  }

  /** The node query() sends a statement to: the master, or else the weighted choice. */
  function QueryNode(manip: bool, masterOnly: bool, mode: int, master: Host,
                     table: seq<Bucket>, draw: Draw): (h: Host)
    requires !ToMaster(manip, masterOnly, mode) ==> table != [] && NoEmptyBucket(table)
    ensures ToMaster(manip, masterOnly, mode) ==> h == master
    ensures !ToMaster(manip, masterOnly, mode) ==> h in table[SelectBucket(table, draw.rand)].hosts
  {
    if ToMaster(manip, masterOnly, mode) then master
    else GetNode(table, draw.rand, draw.pick)
  }

  /** Whether a routed call of `f` under `mode` goes to the weighted choice rather than the master. */
  predicate Weighted(f: string, mode: int) {
    Classify(f) == WeightedRead && !HasBit(mode, MASTER)
  }

  /**
   * The node a weighted-read or master-only call is forwarded to: the master
   * unless the call is a weighted read whose mode lacks the MASTER bit.
   */
  function CallTarget(f: string, args: seq<Arg>, master: Host, table: seq<Bucket>, draw: Draw): (h: Host)
    requires Classify(f) == WeightedRead || Classify(f) == MasterOnly
    requires Weighted(f, CallMode(f, args)) ==> table != [] && NoEmptyBucket(table)
    ensures !Weighted(f, CallMode(f, args)) ==> h == master
    ensures Weighted(f, CallMode(f, args)) ==> h in table[SelectBucket(table, draw.rand)].hosts
  {
    if Classify(f) == MasterOnly || HasBit(CallMode(f, args), MASTER) then master
    else GetNode(table, draw.rand, draw.pick)
  }

  /** Whether the cache handler is consulted for a call of `f` under `mode`. */
  predicate Cached(handlerSet: bool, f: string, mode: int) {
    handlerSet && HasBit(mode, CACHE) && ModeKey(f).Some?
  }

  /** The four flags are distinct bits: each has its own bit set and no other flag's. */
  lemma FlagsDistinct()
    ensures HasBit(READ, READ) && !HasBit(READ, WRITE) && !HasBit(READ, CACHE) && !HasBit(READ, MASTER)
    ensures HasBit(WRITE, WRITE) && !HasBit(WRITE, READ) && !HasBit(WRITE, CACHE) && !HasBit(WRITE, MASTER)
    ensures HasBit(CACHE, CACHE) && !HasBit(CACHE, READ) && !HasBit(CACHE, WRITE) && !HasBit(CACHE, MASTER)
    ensures HasBit(MASTER, MASTER) && !HasBit(MASTER, READ) && !HasBit(MASTER, WRITE) && !HasBit(MASTER, CACHE)
  {
  }

  /** Every name recording the last node, and every name with a mode position, is a weighted read. */
  lemma TablesAreWeightedReads(f: string)
    ensures f in QueryFunctions ==> Classify(f) == WeightedRead
    ensures ModeKey(f).Some? ==> Classify(f) == WeightedRead
  {
  }

  /**
   * Weighted reads without a mode position (limitQuery, quoteSmart,
   * getTables) always go to the master and are never cached.
   */
  lemma ModelessReadsStayOnMaster(f: string, args: seq<Arg>, handlerSet: bool)
    requires Classify(f) == WeightedRead && ModeKey(f).None?
    ensures f == "limitQuery" || f == "quoteSmart" || f == "getTables"
    ensures !Weighted(f, CallMode(f, args))
    ensures !Cached(handlerSet, f, CallMode(f, args))
  {
  }

  /**
   * The cache is consulted only when a non-null mode argument carries the
   * CACHE bit: the default mode MASTER never caches.
   */
  lemma CachedNeedsModeArgument(handlerSet: bool, f: string, args: seq<Arg>)
    requires Cached(handlerSet, f, CallMode(f, args))
    ensures handlerSet && ModeKey(f).Some? && ModeKey(f).value < |args| && !args[ModeKey(f).value].Nil?
    ensures HasBit(ModeOf(args[ModeKey(f).value]), CACHE)
  {
  }

  /**
   * A weighted read leaves the master only when a non-null mode argument
   * at its mode position lacks the MASTER bit.
   */
  lemma WeightedNeedsModeArgument(f: string, args: seq<Arg>)
    requires Weighted(f, CallMode(f, args))
    ensures ModeKey(f).Some? && ModeKey(f).value < |args| && !args[ModeKey(f).value].Nil?
    ensures !HasBit(ModeOf(args[ModeKey(f).value]), MASTER)
  {
  }
}
