# DB_Virtual routing core in Dafny

This project models `DB_Virtual`, a PEAR DB decorator. It puts one master
database and N replica nodes behind the PEAR DB API. Reads are spread over the
nodes by weight. Writes and transactional work go to the master.

The model covers:

- the registry of nodes: `attachMaster`, `attachNode` and the weight table
  that `normalizeWeight` rebuilds;
- weighted node selection: `getNode`;
- statement execution: `query` and `queryMaster`, including the re-query on
  the master when a replica returns no rows;
- the `autoCommit` switch that turns on master-only mode;
- the `__call` dispatcher, with its five call categories, the broadcast to
  every node, `affectedRows` on the last node, and the read-through cache;
- `accept`, which installs a cache handler;
- the mode flags and the two static tables of the class.

Files:

- `types.dfy`: hosts, values, arguments, and the external collaborators as
  oracles.
- `weights.dfy`: weight normalisation as functions, with its lemmas.
- `selection.dfy`: `getNode`.
- `dispatch.dfy`: the flags, the static tables and the classification of
  `__call`.
- `virtual.dfy`: the router object. It is a class whose methods update its
  fields the way the PHP methods do.

The class invariant `Valid` says four things:

- the node and weight tables have the same keys, listed once each in
  registration order;
- every weight is positive;
- the selection table is exactly the normalisation of the weights;
- that table is sorted, has no empty bucket, and lists only registered hosts.

Every public method keeps `Valid`.

Weights are kept as exact integers. PHP's `round(($weight / $total) * 100)`
becomes `Round(w, total)`. `RoundNearest` proves that `Round` is the integer
nearest to `100 * w / total`, with halves rounded up.

PHP's `ksort` over integer keys becomes a scan of the keys 0..100 in turn.
This is exact because `Shares` proves that every key lies in 0..100.

The external world enters as parameters:

- the driver (`isManip`, `query`, and every forwarded method) is a `Driver`
  of functions;
- `rand(0, 100)` and `array_rand` are a `Draw`;
- the cache handler is a key/value map, and how its `get` fails and whether
  its `save` stores are a `CacheIO`;
- `DB::connect` is its outcome, a `Connect`;
- `DB::parseDSN` is left out: a node is named directly by its `hostspec`.

Behaviour of the code that the model reproduces as written:

- `__call` ignores master-only mode. Only `query` honours it.
- The default mode of `query` and `__call` is MASTER: a `query` without a
  mode, and a forwarded read whose mode argument is absent or null, run on
  the master and are never cached.
- `__call` records the last node only for the five query functions, not for
  every routed call.
- The re-query on the master after an empty result happens only in `query`,
  never in `__call`.
- `affectedRows` returns DB_OK, not the count, whenever the node does not
  fail. With no node used yet there is no connection; PHP then warns and
  yields null, which the model writes as `Null`, so the result is DB_OK.
- `attachMaster` keeps the new master name even when attaching it fails.
- A weighted read made while no node is registered finds no node (`getNode`
  yields null). It then fails with the "not supported" error.

## Model

| member | source | states |
|---|---|---|
| Dispatch.FlagsDistinct | Virtual.php:24-27 | READ, WRITE, CACHE and MASTER are four distinct bits; each flag's own bit is set in it and no other flag's bit is |
| Dispatch.HasBit | Virtual.php:215-216 | whether a flag's bit is set in a mode, as `$mode & FLAG` tests it |
| Dispatch.HasBitIsAnd | Virtual.php:215-216 | for modes in 0..2^63-1, HasBit on each of the four flags is the bitwise and of the 64-bit word with that flag |
| Dispatch.TablesAreWeightedReads | Virtual.php:107-124 | every name in `$queryFunctions` and every name with an entry in `$modeKeys` is in the weighted-read category of `__call` |
| Dispatch.ModeKey | Virtual.php:118-124 | exactly getOne, getCol, getAll, getRow and getAssoc have a mode position, at 2, 3, 3, 3 and 5, so a fetch-mode position precedes it |
| Dispatch.Classify | Virtual.php:295-354 | each case group of the dispatch switch is exactly its listed names: eight weighted reads, seven master-only calls, three broadcasts and affectedRows; every other name is unsupported |
| Dispatch.CallMode | Virtual.php:294-308 | the mode is the argument at the mode position when that argument is present and not null; it stays MASTER for names without a mode position and when the argument is absent or null |
| Dispatch.Prepared | Virtual.php:306-311 | when a mode argument is given, a null fetch-mode argument just before it becomes DB_FETCHMODE_DEFAULT; no other argument changes and the length is kept |
| Dispatch.QueryNode | Virtual.php:215-220 | query() picks the master for manipulation statements, in master-only mode, or with the MASTER or WRITE bit; otherwise a host of the bucket the draw selects, which needs a non-empty table only then |
| Dispatch.ToMaster | Virtual.php:215-216 | query() goes to the master for a manipulation statement, in master-only mode, or with the MASTER or WRITE bit |
| Dispatch.CallTarget | Virtual.php:314-318 | a routed call goes to the master unless it is a weighted read without the MASTER bit, which goes to a host of the bucket the draw selects |
| Dispatch.ModelessReadsStayOnMaster | Virtual.php:302-318 | limitQuery, quoteSmart and getTables have no mode position, so they always go to the master and are never cached |
| Dispatch.WeightedNeedsModeArgument | Virtual.php:306-318 | a weighted read leaves the master only when a non-null mode argument lacks the MASTER bit |
| Dispatch.Weighted | Virtual.php:314-318 | a routed call leaves the master when it is a weighted read whose mode lacks the MASTER bit |
| Dispatch.Cached | Virtual.php:366-367 | the cache is consulted when a handler is set, the mode has the CACHE bit, and the name has a mode position |
| Dispatch.CachedNeedsModeArgument | Virtual.php:294-367 | the cache is consulted only when a non-null mode argument with the CACHE bit is given; the default mode never caches |
| Selection.SelectBucket | Virtual.php:404-423 | the scan stops at the first bucket whose key is at least the draw, or at the last bucket when the draw exceeds every key |
| Selection.GetNode | Virtual.php:402-424 | getNode returns a host of the bucket the scan stops at |
| Selection.GetNodeRegistered | Virtual.php:402-424 | on a normalised table of registered hosts, getNode returns a registered host, from the bucket keyed by that host's own rounded share |
| Selection.GetNodeSingle | Virtual.php:402-424 | with one registered host, every draw selects it |
| Selection.GetNodeEqualPair | Virtual.php:402-424 | two equally weighted hosts share the bucket keyed 50; every draw stops there, and the tie-break draw picks between them |
| Weights.WellWeightedAppend | Virtual.php:165-172 | adding an unregistered host with a positive weight keeps hosts listed once and weights positive |
| Weights.Sum | Virtual.php:437-440 | the total weight is positive exactly when some host is registered |
| Weights.SumBounds | Virtual.php:437-440 | every single weight is at most the total |
| Weights.Round | Virtual.php:444 | the rounded share of a weight that is at most the total lies in 0..100 |
| Weights.RoundNearest | Virtual.php:444 | the rounded share is the integer nearest to 100 * weight / total, with halves rounded up |
| Weights.Shares | Virtual.php:442-444 | every registered host, and only those, has a key, and every key lies in 0..100 |
| Weights.MembersSpec | Virtual.php:445-449 | a host is in the group of key k exactly when it is registered and its key is k |
| Weights.MembersDistinct | Virtual.php:445-449 | no group lists a host twice |
| Weights.NormalizeOrdered | Virtual.php:452 | the normalised table is sorted by key, its keys lie in 0..100, and no bucket is empty |
| Weights.NormalizePlacement | Virtual.php:442-452 | every registered host is in exactly one bucket, the one keyed by its own rounded share |
| Weights.NormalizeDrawn | Virtual.php:442-449 | every bucket lists distinct, registered hosts |
| Weights.NormalizeEmpty | Virtual.php:432-453 | the table is empty exactly when no host is registered |
| Weights.NormalizeSingle | Virtual.php:432-453 | a lone host gets the single bucket keyed 100 |
| Weights.NormalizeEqualPair | Virtual.php:432-453 | two equally weighted hosts share one bucket keyed 50, in registration order |
| Weights.BucketsBelowSingle | Virtual.php:442-452 | when every host has the same key, the table is that one bucket (or empty) |
| Weights.Normalize | Virtual.php:432-453 | the table normalizeWeight rebuilds: the hosts grouped by rounded share, keys ascending |
| Virtual.AttachCheck | Virtual.php:153-163 | attaching is refused exactly when no master is set, the weight is not numeric, or it is not positive; with no master the error is NoMaster whatever the weight |
| Virtual.CacheStep | Virtual.php:366-376 | only a cached call (handler set, CACHE bit, mode position) consults the cache; a failing get returns its error; a stored value other than false is returned with no node reached; a missing key or a stored false goes on to the node |
| Virtual.AfterForward | Virtual.php:388-391 | a cached call whose result is not an error stores that result under the prepared arguments when the handler saves; in every other case the handler is unchanged |
| Virtual.CacheRoundTrip | Virtual.php:366-393 | once a cached call's result (neither an error nor false) is saved, the same call is answered from the cache with that result and reaches no node |
| Virtual.CachedFalseMisses | Virtual.php:373-391 | a saved false reads as a miss, so the same call goes on to a node again |
| Virtual.BroadcastOutcomeUnique | Virtual.php:331-345 | the outcome of a broadcast is determined by the nodes and the driver's answers |
| Virtual.BroadcastStopsAtFirstError | Virtual.php:334-343 | when the k-th node is the first to fail, the broadcast returns that failure and never calls the nodes after it |
| Virtual.RegistryOf | Virtual.php:432-453 | a table rebuilt by normalisation over agreeing node and weight tables satisfies the registry invariant |
| Virtual.RegistryAppend | Virtual.php:165-172 | adding a fresh host to both tables keeps weights positive and the keys of both tables equal to the registered hosts |
| Virtual.VirtualDb.constructor | Virtual.php:51-132 | a new router has no master, no node, an empty table, master-only off, no last node and no cache handler, and satisfies the invariant |
| Virtual.VirtualDb.AttachNode | Virtual.php:147-177 | each refusal returns its error and changes nothing; a failed connect returns its error and changes nothing; an already registered host gives DB_OK and changes nothing; otherwise the host is appended with its connection and weight, and the invariant (which includes the rebuilt table) holds |
| Virtual.VirtualDb.Register | Virtual.php:165-174 | the host is appended to the registration order, both tables gain its entry, and the rebuilt table satisfies the invariant |
| Virtual.VirtualDb.AttachMaster | Virtual.php:187-195 | the master is set to the host in every case; the rest is attachNode's outcome, checked against the new master |
| Virtual.VirtualDb.NormalizeWeight | Virtual.php:432-453 | the rebuilt table equals the normalisation of the current weights |
| Virtual.VirtualDb.TotalWeight | Virtual.php:437-440 | the first pass returns the sum of all registered weights |
| Virtual.VirtualDb.GroupByShare | Virtual.php:442-450 | the second pass maps exactly the keys with members, each to its members in registration order |
| Virtual.VirtualDb.ForwardToAll | Virtual.php:331-345 | nodes are called in registration order up to and including the first failure, whose error is returned; DB_OK when every node succeeded |
| Virtual.VirtualDb.QueryMaster | Virtual.php:255-259 | the statement runs on the master, which becomes the last node |
| Virtual.VirtualDb.Query | Virtual.php:213-238 | with the MASTER bit, which is the default mode, the statement runs on the master; otherwise on QueryNode's choice, which becomes the last node; an empty result set from a replica is replaced by the master's answer, and the master is called exactly once more; the master must be registered only on the paths that reach it; the last node and every node called are registered |
| Virtual.Retried | Virtual.php:232-233 | query() re-issues a statement on the master when it ran on another node and returned an empty result set |
| Virtual.VirtualDb.AutoCommit | Virtual.php:269-277 | the master's answer is returned; master-only mode is set to the opposite of `onoff` (false by default), unless the master failed, in which case it is unchanged |
| Virtual.VirtualDb.Call | Virtual.php:291-394 | unsupported names fail with nothing called; broadcasts reach the nodes as ForwardToAll states; affectedRows calls the last node when it is registered and returns its error or DB_OK; a weighted read with no registered node fails as unsupported; routed calls behave as Routed states; the invariant holds |
| Virtual.VirtualDb.Invoke | Virtual.php:383 | a forwarded call reaches the driver on a registered node; on an unregistered handle it yields null |
| Virtual.VirtualDb.Route | Virtual.php:306-393 | the target becomes the last node for query functions; a failing cache get or a cache hit ends the call with no node reached; otherwise the target, when registered, is called with the prepared arguments, and the handler is updated by AfterForward |
| Virtual.VirtualDb.Accept | Virtual.php:496-504 | a cache handler is installed and true returned; any other object is refused and the handler is kept |

## Left out

- Floating-point weights. Weights are integers and `round` is exact rational half-up rounding. Fractional weights and floating-point error at exact halves are not modelled.
- `is_numeric` on strings. A weight is either a number or not numeric (`WeightArg`). A mode argument that is a numeric string counts as 0.
- `DB::parseDSN`. A node is named by its `hostspec` directly, and array and string DSNs are not distinguished.
- `DB::connect`, `DB::isManip` and the driver methods. They are oracles: parameters of the model, not code in it.
- `rand` and `array_rand`. They are the `Draw` parameter. The tie-break index is `pick` modulo the bucket size.
- Virtual/Cache/Basic.php is not part of this model. The cache handler is a key/value map, and its failures are given by `CacheIO`.
- `trigger_error` notices and warnings. They do not change state or results.
- The `PEAR::isError` checks on stored node handles. A stored handle is always an open connection here, so those branches cannot be taken.
- `__get` and `__set`. They pass properties through to the driver objects and hold no routing logic.
- VirtualDb.QueryMaster and VirtualDb.AutoCommit require the master to be registered, and VirtualDb.Query requires it on the paths that reach the master (the master is chosen, or a replica's empty result is re-queried). There PHP calls a method on null and stops with a fatal error, which is not modelled. VirtualDb.Query also requires a registered node when it draws one: on an empty table the drawn node is null and PHP stops the same way.
- HasBitIsAnd: the bitwise reading of HasBit is proved for modes in 0..2^63-1 only; for negative 64-bit modes the model's HasBit reads the same two's-complement bit, but that is not proved.
- Selection.GetNode and VirtualDb.Route require a non-empty table. `getNode` on an empty table yields null; `Call` models the error that follows directly.
