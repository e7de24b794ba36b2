/**
 * The router object: one master, N replica nodes with weights, the
 * normalised selection table, the master-only switch, the last node used
 * and an optional read-through cache handler.
 */
module Virtual {
  import opened Types
  import opened Weights
  import opened Selection
  import opened Dispatch

  /** What accept() may be handed: a cache handler (a key/value store) or any other object. */
  datatype Candidate = CacheHandler(store: CacheStore) | OtherObject

  /** The first validation of attachNode that fails, in the order the checks are made. */
  function AttachCheck(master: Host, weight: WeightArg): (e: Option<Failure>)
    ensures e.None? <==> master != "" && weight.Numeric? && weight.n > 0
    ensures e == Some(NoMaster) <==> master == ""
  {
    if master == "" then Some(NoMaster)
    else if weight.NonNumeric? then Some(WeightNotNumeric)
    else if weight.n <= 0 then Some(WeightNotPositive)
    else None
  }

  /** The cache handler's get: the stored value, or false on a miss. */
  function Lookup(store: CacheStore, key: CacheKey): Value {
    if key in store then store[key] else False
  }

  /**
   * The outcome of the cache step of a forwarded call: Some(v) when the call
   * returns v without reaching a node (a failing get, or a hit), None when
   * the call goes on to the node.
   */
  function CacheStep(handler: Option<CacheStore>, f: string, args: seq<Arg>, cio: CacheIO): (v: Option<Value>)
    ensures v.Some? ==> Cached(handler.Some?, f, CallMode(f, args))
    ensures Cached(handler.Some?, f, CallMode(f, args)) && cio.getFailure.Some? ==>
      v == Some(Error(cio.getFailure.value))
    ensures Cached(handler.Some?, f, CallMode(f, args)) && cio.getFailure.None? ==>
      var key := CacheKey(f, Prepared(f, args));
      (key in handler.value && handler.value[key] != False ==> v == Some(handler.value[key]))
      && (key !in handler.value || handler.value[key] == False ==> v.None?)
    ensures v.Some? && !v.value.Error? ==>
      CacheKey(f, Prepared(f, args)) in handler.value && handler.value[CacheKey(f, Prepared(f, args))] == v.value
    ensures v.Some? && v.value.Error? ==> cio.getFailure.Some? || CacheKey(f, Prepared(f, args)) in handler.value
    ensures v.Some? ==> v.value != False
  {
    if !Cached(handler.Some?, f, CallMode(f, args)) then None
    else if cio.getFailure.Some? then Some(Error(cio.getFailure.value))
    else
      var data := Lookup(handler.value, CacheKey(f, Prepared(f, args)));
      if data == False then None else Some(data)
  }

  /** The cache handler after a forwarded call returned `r`: saved only when cached and not an error. */
  function AfterForward(handler: Option<CacheStore>, f: string, args: seq<Arg>, cio: CacheIO, r: Value): (h: Option<CacheStore>)
    ensures h.Some? <==> handler.Some?
    ensures Cached(handler.Some?, f, CallMode(f, args)) && !r.Error? && cio.saved ==>
      h == Some(handler.value[CacheKey(f, Prepared(f, args)) := r])
    ensures h != handler ==> Cached(handler.Some?, f, CallMode(f, args)) && !r.Error? && cio.saved
    ensures h != handler ==> h.value == handler.value[CacheKey(f, Prepared(f, args)) := r]
  {
    if Cached(handler.Some?, f, CallMode(f, args)) && !r.Error? && cio.saved
    then Some(handler.value[CacheKey(f, Prepared(f, args)) := r])
    else handler
  }

  /**
   * The read-through round trip: once a cached call's result is saved, the
   * same call is answered from the cache without reaching a node, provided
   * the result is neither an error nor false and the next get succeeds.
   */
  lemma CacheRoundTrip(s: CacheStore, f: string, args: seq<Arg>, cio: CacheIO, cio2: CacheIO, r: Value)
    requires Cached(true, f, CallMode(f, args)) && cio.saved && cio2.getFailure.None?
    requires !r.Error? && r != False
    ensures CacheStep(AfterForward(Some(s), f, args, cio, r), f, args, cio2) == Some(r)
  {
  }

  /**
   * A saved false is indistinguishable from a miss: the same call goes on
   * to a node again.
   */
  lemma CachedFalseMisses(s: CacheStore, f: string, args: seq<Arg>, cio: CacheIO, cio2: CacheIO)
    requires Cached(true, f, CallMode(f, args)) && cio.saved && cio2.getFailure.None?
    ensures CacheStep(AfterForward(Some(s), f, args, cio, False), f, args, cio2) == None
  {
  }

  /**
   * What a broadcast over `hosts` may return: it called a prefix of the
   * hosts, in order; exactly the last one called failed when the result is
   * an error, and that error is the result; otherwise every host was
   * called and the result is DB_OK.
   */
  ghost predicate BroadcastOutcome(hosts: seq<Host>, f: string, args: seq<Arg>, drv: Driver,
                                   r: Value, called: seq<Host>)
  {
    && |called| <= |hosts| && called == hosts[..|called|]
    && (forall i :: 0 <= i < |called| ==>
          (drv.call(called[i], f, args).Error? <==> r.Error? && i == |called| - 1))
    && (r.Error? ==> called != [] && r == drv.call(called[|called| - 1], f, args))
    && (!r.Error? ==> r == DbOk && called == hosts)
  }

  /** A broadcast's outcome is determined by the hosts and the driver's answers. */
  lemma BroadcastOutcomeUnique(hosts: seq<Host>, f: string, args: seq<Arg>, drv: Driver,
                               r1: Value, called1: seq<Host>, r2: Value, called2: seq<Host>)
    requires BroadcastOutcome(hosts, f, args, drv, r1, called1)
    requires BroadcastOutcome(hosts, f, args, drv, r2, called2)
    ensures r1 == r2 && called1 == called2
  {
  }

  /**
   * When the k-th host is the first whose call fails, a broadcast returns
   * that failure and never calls the hosts after it.
   */
  lemma BroadcastStopsAtFirstError(hosts: seq<Host>, f: string, args: seq<Arg>, drv: Driver,
                                   r: Value, called: seq<Host>, k: nat)
    requires BroadcastOutcome(hosts, f, args, drv, r, called)
    requires k < |hosts| && drv.call(hosts[k], f, args).Error?
    requires forall j :: 0 <= j < k ==> !drv.call(hosts[j], f, args).Error?
    ensures called == hosts[..k + 1] && r == drv.call(hosts[k], f, args)
  {
  }

  /** Node and weight tables have the same keys, exactly the hosts listed in `order`. */
  ghost predicate KeysAgree(order: seq<Host>, nodes: map<Host, Conn>, weights: map<Host, int>) {
    && (forall h :: h in order <==> h in nodes)
    && weights.Keys == nodes.Keys
  }

  /**
   * The registry invariant: node and weight tables have the same keys,
   * listed once each in `order`, every weight is positive, and the
   * selection table is the normalisation of the weights, with the shape
   * every normalised table has.
   */
  ghost predicate Registry(order: seq<Host>, nodes: map<Host, Conn>, weights: map<Host, int>, normalized: seq<Bucket>) {
    && WellWeighted(order, weights)
    && KeysAgree(order, nodes, weights)
    && normalized == Normalize(order, weights)
    && Ordered(normalized)
    && NoEmptyBucket(normalized)
    && DrawnFrom(normalized, order)
    && (normalized == [] <==> order == [])
  }

  /** A table rebuilt by normalisation over agreeing tables satisfies the registry invariant. */
  lemma RegistryOf(order: seq<Host>, nodes: map<Host, Conn>, weights: map<Host, int>, normalized: seq<Bucket>)
    requires WellWeighted(order, weights) && KeysAgree(order, nodes, weights)
    requires normalized == Normalize(order, weights)
    ensures Registry(order, nodes, weights, normalized)
  {
    NormalizeOrdered(order, weights);
    NormalizeDrawn(order, weights);
    NormalizeEmpty(order, weights);
  }

  /** Appending an unregistered host with a positive weight keeps the weights positive and the keys agreeing. */
  lemma RegistryAppend(order: seq<Host>, nodes: map<Host, Conn>, weights: map<Host, int>,
                       host: Host, c: Conn, w: int)
    requires WellWeighted(order, weights) && KeysAgree(order, nodes, weights)
    requires host !in nodes && w > 0
    ensures WellWeighted(order + [host], weights[host := w])
    ensures KeysAgree(order + [host], nodes[host := c], weights[host := w])
  {
    WellWeightedAppend(order, weights, host, w);
  }

  class VirtualDb {
    /** The master's host; "" until attachMaster. */
    var master: Host
    /** The registered hosts in registration order: the key order of both node and weight tables. */
    var order: seq<Host>
    /** The open connection of every registered host. */
    var nodes: map<Host, Conn>
    /** The raw weight of every registered host. */
    var weights: map<Host, int>
    /** The normalised selection table. */
    var normalized: seq<Bucket>
    /** Set while auto-commit is off: every statement of query() then goes to the master. */
    var masterOnly: bool
    /** The node the last query ran on. */
    var lastNode: Host
    /** The accepted cache handler, if any. */
    var cacheHandler: Option<CacheStore>

    /** The registry invariant of the router's current state (see Registry). */
    ghost predicate Valid()
      reads this`order, this`nodes, this`weights, this`normalized
    {
      Registry(order, nodes, weights, normalized)
    }

    constructor ()
      ensures Valid()
      ensures master == "" && order == [] && nodes == map[] && weights == map[] && normalized == []
      ensures !masterOnly && lastNode == "" && cacheHandler == None
    {
      master, order, nodes, weights := "", [], map[], map[];
      masterOnly, lastNode, cacheHandler := false, "", None;
      normalized := [];
      new;
      NormalizeEmpty([], map[]);
      RegistryOf(order, nodes, weights, normalized);
    }

    /**
     * Registers `host` with `weight`, connecting with the outcome `connect`:
     * an error and no change when no master is set, the weight is not a
     * positive number, or the connection fails; DB_OK and no change when the
     * host is already registered; otherwise DB_OK with the host appended and
     * the table rebuilt.
     */
    method AttachNode(host: Host, weight: WeightArg, connect: Connect) returns (r: Value)
      requires Valid()
      modifies this`order, this`nodes, this`weights, this`normalized
      ensures Valid()
      ensures AttachCheck(old(master), weight).Some? ==>
        r == Error(AttachCheck(old(master), weight).value) && unchanged(this)
      ensures AttachCheck(old(master), weight).None? && host in old(nodes) ==> r == DbOk && unchanged(this)
      ensures AttachCheck(old(master), weight).None? && host !in old(nodes) && connect.ConnectFailed? ==>
        r == Error(connect.failure) && unchanged(this)
      ensures AttachCheck(old(master), weight).None? && host !in old(nodes) && connect.Connected? ==>
        && r == DbOk
        && order == old(order) + [host]
        && nodes == old(nodes)[host := connect.conn]
        && weights == old(weights)[host := weight.n]
    {
      var check := AttachCheck(master, weight);
      if check.Some? {
        r := Error(check.value);
      } else if host in nodes {
        r := DbOk;
      } else if connect.ConnectFailed? {
        // The source stores the connect result first and removes it again on
        // failure; the net effect is that a failed connect changes nothing.
        r := Error(connect.failure);
      } else {
        Register(host, connect.conn, weight.n);
        r := DbOk;
      }
    }

    /** Adds an unregistered host with its connection and positive weight, then rebuilds the table. */
    method Register(host: Host, c: Conn, w: int)
      requires Valid() && host !in nodes && w > 0
      modifies this`order, this`nodes, this`weights, this`normalized
      ensures Valid()
      ensures order == old(order) + [host]
      ensures nodes == old(nodes)[host := c]
      ensures weights == old(weights)[host := w]
    {
      RegistryAppend(order, nodes, weights, host, c, w);
      var newOrder, newNodes, newWeights := order + [host], nodes[host := c], weights[host := w];
      order, nodes, weights := newOrder, newNodes, newWeights;
      NormalizeWeight();
      RegistryOf(newOrder, newNodes, newWeights, normalized);
    }

    /** Sets the master to `host` (even when attaching it then fails) and attaches it as a node. */
    method AttachMaster(host: Host, weight: WeightArg, connect: Connect) returns (r: Value)
      requires Valid()
      modifies this`master, this`order, this`nodes, this`weights, this`normalized
      ensures Valid()
      ensures master == host
      ensures AttachCheck(host, weight).Some? ==>
        && r == Error(AttachCheck(host, weight).value)
        && order == old(order) && nodes == old(nodes) && weights == old(weights) && normalized == old(normalized)
      ensures AttachCheck(host, weight).None? && host in old(nodes) ==>
        && r == DbOk
        && order == old(order) && nodes == old(nodes) && weights == old(weights) && normalized == old(normalized)
      ensures AttachCheck(host, weight).None? && host !in old(nodes) && connect.ConnectFailed? ==>
        && r == Error(connect.failure)
        && order == old(order) && nodes == old(nodes) && weights == old(weights) && normalized == old(normalized)
      ensures AttachCheck(host, weight).None? && host !in old(nodes) && connect.Connected? ==>
        && r == DbOk
        && order == old(order) + [host]
        && nodes == old(nodes)[host := connect.conn]
        && weights == old(weights)[host := weight.n]
    {
      master := host;
      r := AttachNode(host, weight, connect);
    }

    /** Rebuilds the selection table from scratch out of the current weights. */
    method NormalizeWeight()
      requires WellWeighted(order, weights)
      modifies this`normalized
      ensures normalized == Normalize(order, weights)
    {
      normalized := [];
      var total := TotalWeight();
      var groups := GroupByShare(total);
      ghost var share := Shares(order, weights);
      // ksort: every key lies in 0..100, so visiting 0..100 in turn yields the keys in order.
      for k := 0 to 101
        invariant normalized == BucketsBelow(order, share, k)
      {
        BucketsStep(order, share, k + 1);
        if k in groups {
          normalized := normalized + [Bucket(k, groups[k])];
        }
      }
    }

    /** The first pass of normalizeWeight: the sum of all registered weights. */
    method TotalWeight() returns (total: int)
      requires WellWeighted(order, weights)
      ensures total == Sum(order, weights)
    {
      total := 0;
      for i := 0 to |order|
        invariant total == Sum(order[..i], weights)
      {
        SumStep(order, weights, i);
        total := total + weights[order[i]];
      }
      assert order[..|order|] == order;
    }

    /**
     * The second pass of normalizeWeight: the hosts grouped by the rounded
     * share of `total` their weight makes, each group in registration order.
     */
    method GroupByShare(total: int) returns (groups: map<int, seq<Host>>)
      requires WellWeighted(order, weights) && total == Sum(order, weights)
      ensures forall k :: k in groups <==> Members(order, Shares(order, weights), k) != []
      ensures forall k :: k in groups ==> groups[k] == Members(order, Shares(order, weights), k)
    {
      ghost var share := Shares(order, weights);
      groups := map[];
      for i := 0 to |order|
        invariant forall k :: k in groups <==> Members(order[..i], share, k) != []
        invariant forall k :: k in groups ==> groups[k] == Members(order[..i], share, k)
      {
        var newWeight := Round(weights[order[i]], total);
        assert newWeight == share[order[i]];
        ghost var before := groups;
        if newWeight !in groups {
          groups := groups[newWeight := []];
        }
        groups := groups[newWeight := groups[newWeight] + [order[i]]];
        forall k
          ensures k in groups <==> Members(order[..i + 1], share, k) != []
          ensures k in groups ==> groups[k] == Members(order[..i + 1], share, k)
        {
          MembersStep(order, share, i, k);
          if k != newWeight {
            assert (k in groups <==> k in before) && (k in groups ==> groups[k] == before[k]);
          }
        }
      }
      assert order[..|order|] == order;
    }

    /**
     * Sends every forwarded broadcast call (disconnect, setOption,
     * setFetchMode) to each node in registration order, stopping at the
     * first error and returning it; DB_OK when none failed.
     */
    method ForwardToAll(f: string, args: seq<Arg>, drv: Driver) returns (r: Value, called: seq<Host>)
      ensures BroadcastOutcome(order, f, args, drv, r, called)
    {
      called := [];
      for i := 0 to |order|
        invariant called == order[..i]
        invariant forall j :: 0 <= j < i ==> !drv.call(order[j], f, args).Error?
      {
        var result := drv.call(order[i], f, args);
        called := called + [order[i]];
        if result.Error? {
          assert called == order[..i + 1];
          return result, called;
        }
      }
      assert called == order;
      r := DbOk;
    }

    /** Runs `q` on the master and records the master as the last node. */
    method QueryMaster(q: string, params: seq<Arg>, drv: Driver) returns (res: QueryResult)
      requires master in nodes
      modifies this`lastNode
      ensures lastNode == master && res == drv.query(master, q, params)
    {
      lastNode := master;
      res := drv.query(master, q, params);
    }

    /**
     * Runs a statement: with the MASTER bit (the default mode) through
     * queryMaster; otherwise on the node QueryNode picks, which becomes the
     * last node, re-issuing the statement once on the master when a replica
     * answers with an empty result set. The master must be registered on
     * the paths that reach it, and a weighted choice needs a registered node.
     */
    method Query(drv: Driver, draw: Draw, q: string, params: seq<Arg> := [], mode: int := MASTER)
        returns (res: QueryResult, called: seq<Host>)
      requires Valid()
      requires ToMaster(drv.isManip(q), masterOnly, mode) ==> master in nodes
      requires !ToMaster(drv.isManip(q), masterOnly, mode) ==> order != []
      requires !ToMaster(drv.isManip(q), masterOnly, mode) ==>
        var node := QueryNode(drv.isManip(q), masterOnly, mode, master, normalized, draw);
        Retried(node, master, drv.query(node, q, params)) ==> master in nodes
      modifies this`lastNode
      ensures lastNode in nodes && forall h :: h in called ==> h in nodes
      ensures HasBit(mode, MASTER) ==>
        lastNode == master && called == [master] && res == drv.query(master, q, params)
      ensures !HasBit(mode, MASTER) ==>
        lastNode == QueryNode(drv.isManip(q), masterOnly, mode, master, normalized, draw)
      ensures !HasBit(mode, MASTER) && Retried(lastNode, master, drv.query(lastNode, q, params)) ==>
        called == [lastNode, master] && res == drv.query(master, q, params)
      ensures !HasBit(mode, MASTER) && !Retried(lastNode, master, drv.query(lastNode, q, params)) ==>
        called == [lastNode] && res == drv.query(lastNode, q, params)
    {
      var node := QueryNode(drv.isManip(q), masterOnly, mode, master, normalized, draw);
      // A CACHE bit only draws a notice here: query() never caches.
      if HasBit(mode, MASTER) {
        res := QueryMaster(q, params, drv);
        called := [master];
        return;
      }
      lastNode := node;
      res := drv.query(node, q, params);
      called := [node];
      if node != master && res.ResultSet? && res.rows == 0 {
        res := drv.query(master, q, params);
        called := called + [master];
      }
    }

    /** Turns auto-commit on the master on or off; master-only follows "off" unless the master failed. */
    method AutoCommit(drv: Driver, onoff: bool := false) returns (r: Value)
      requires master in nodes
      modifies this`masterOnly
      ensures r == drv.call(master, "autoCommit", [Flag(onoff)])
      ensures masterOnly == if r.Error? then old(masterOnly) else !onoff
    {
      r := drv.call(master, "autoCommit", [Flag(onoff)]);
      if !r.Error? {
        masterOnly := !onoff;
      }
    }

    /** The result of forwarding to `node`: the driver's answer, or null when no connection is registered. */
    function Invoke(node: Host, f: string, a: seq<Arg>, drv: Driver): Value
      reads this
    {
      if node in nodes then drv.call(node, f, a) else Null
    }

    /**
     * Forwards a call of method `f` by its category: unsupported names fail,
     * broadcasts go to every node, affectedRows to the last node, and
     * weighted reads and master-only calls to CallTarget, through the cache
     * when it applies. A weighted read with no node registered finds no
     * node and fails like an unsupported name.
     */
    method Call(f: string, args: seq<Arg>, drv: Driver, draw: Draw, cio: CacheIO)
        returns (r: Value, called: seq<Host>)
      requires Valid()
      modifies this`lastNode, this`cacheHandler
      ensures Valid()
      ensures Classify(f) == Unsupported ==>
        && r == Error(NotSupported(f)) && called == []
        && lastNode == old(lastNode) && cacheHandler == old(cacheHandler)
      ensures Classify(f) == Broadcast ==>
        && BroadcastOutcome(order, f, args, drv, r, called)
        && lastNode == old(lastNode) && cacheHandler == old(cacheHandler)
      ensures Classify(f) == LastNode ==>
        && called == (if old(lastNode) in nodes then [old(lastNode)] else [])
        && r == (if Invoke(old(lastNode), f, args, drv).Error? then Invoke(old(lastNode), f, args, drv) else DbOk)
        && lastNode == old(lastNode) && cacheHandler == old(cacheHandler)
      ensures Weighted(f, CallMode(f, args)) && order == [] ==>
        && r == Error(NotSupported(f)) && called == []
        && lastNode == old(lastNode) && cacheHandler == old(cacheHandler)
      ensures (Classify(f) == WeightedRead || Classify(f) == MasterOnly) && !(Weighted(f, CallMode(f, args)) && order == []) ==>
        Routed(f, args, drv, draw, cio, old(lastNode), old(cacheHandler), r, called)
    {
      match Classify(f)
      case Unsupported =>
        r, called := Error(NotSupported(f)), [];
      case Broadcast =>
        r, called := ForwardToAll(f, args, drv);
      case LastNode =>
        var result := Invoke(lastNode, f, args, drv);
        called := if lastNode in nodes then [lastNode] else [];
        r := if result.Error? then result else DbOk;
      case WeightedRead =>
        if Weighted(f, CallMode(f, args)) && normalized == [] {
          r, called := Error(NotSupported(f)), [];
        } else {
          r, called := Route(f, args, drv, draw, cio);
        }
      case MasterOnly =>
        r, called := Route(f, args, drv, draw, cio);
    }

    /**
     * The outcome of a routed call (weighted read or master-only) started
     * with `lastNode0` and `handler0`: the target becomes the last node for
     * the query functions; a cache step that answers ends the call with no
     * node reached; otherwise the target is called with the prepared
     * arguments and the handler is updated by AfterForward.
     */
    ghost predicate Routed(f: string, args: seq<Arg>, drv: Driver, draw: Draw, cio: CacheIO,
                           lastNode0: Host, handler0: Option<CacheStore>, r: Value, called: seq<Host>)
      requires Classify(f) == WeightedRead || Classify(f) == MasterOnly
      requires Weighted(f, CallMode(f, args)) ==> normalized != [] && NoEmptyBucket(normalized)
      reads this
    {
      && lastNode == (if f in QueryFunctions then CallTarget(f, args, master, normalized, draw) else lastNode0)
      && (CacheStep(handler0, f, args, cio).Some? ==>
            r == CacheStep(handler0, f, args, cio).value && called == [] && cacheHandler == handler0)
      && (CacheStep(handler0, f, args, cio).None? ==>
            var target := CallTarget(f, args, master, normalized, draw);
            && called == (if target in nodes then [target] else [])
            && r == Invoke(target, f, Prepared(f, args), drv)
            && cacheHandler == AfterForward(handler0, f, args, cio, r))
    }

    /** The weighted-read and master-only branch of Call. */
    method Route(f: string, args: seq<Arg>, drv: Driver, draw: Draw, cio: CacheIO)
        returns (r: Value, called: seq<Host>)
      requires Classify(f) == WeightedRead || Classify(f) == MasterOnly
      requires Weighted(f, CallMode(f, args)) ==> normalized != [] && NoEmptyBucket(normalized)
      modifies this`lastNode, this`cacheHandler
      ensures Routed(f, args, drv, draw, cio, old(lastNode), old(cacheHandler), r, called)
    {
      var a := Prepared(f, args);
      var node := CallTarget(f, args, master, normalized, draw);
      if f in QueryFunctions {
        lastNode := node;
      }
      var step := CacheStep(cacheHandler, f, args, cio);
      if step.Some? {
        return step.value, [];
      }
      called := if node in nodes then [node] else [];
      r := Invoke(node, f, a, drv);
      if r.Error? {
        return;
      }
      cacheHandler := AfterForward(cacheHandler, f, args, cio, r);
    }

    /** Installs `obj` as the cache handler when it is one; reports whether it was. */
    method Accept(obj: Candidate) returns (accepted: bool)
      modifies this`cacheHandler
      ensures accepted == obj.CacheHandler?
      ensures cacheHandler == if accepted then Some(obj.store) else old(cacheHandler)
    {
      if obj.CacheHandler? {
        cacheHandler := Some(obj.store);
        return true;
      }
      return false;
    }
  }

  /** Whether query() re-issues a statement on the master after running it on `node`. */
  predicate Retried(node: Host, master: Host, res: QueryResult) {
    node != master && res.ResultSet? && res.rows == 0
  }
}
