/** The GameMode client: a watcher over the `ClientCount` property of the
    com.feralinteractive.GameMode D-Bus object. It caches the count and turns
    property-change notifications into two de-duplicated signals,
    `state-changed` (the count crossed zero) and `count-changed`. Each callback
    is one atomic step returning the new state and the ordered effects. */
module GameModeClient {
  import opened Base

  /** A JavaScript read of `proxy.ClientCount`: None is `null`, which the
      proxy returns while it holds no cached value for the property. */
  type Count = Option<Int32>

  /** JavaScript `count > 0`; `null > 0` is false. */
  predicate Active(n: Count)
  {
    n.Some? && n.value > 0
  }

  /** The live proxy and the id of its `g-properties-changed` handler. */
  datatype ProxyLink = ProxyLink(propsChangedId: nat)

  /** `Client`'s fields: whether a ready callback was given, `_proxy`
      (with `_propsChangedId`), and `client_count`. */
  datatype Watcher = Watcher(hasReadyCallback: bool, proxy: Option<ProxyLink>, clientCount: Count)

  /** The two signals the client emits. */
  datatype Signal = StateChanged(active: bool) | CountChanged(count: Count)

  /** What one step does, in order. */
  datatype Effect =
    | ConnectPropertiesChanged(id: nat)   // `_proxy.connect('g-properties-changed', ...)`
    | CallReady                          // `_readyCallback(this)`
    | Emit(signal: Signal)               // `this.emit(...)`
    | LogProxyError(message: string)     // `log('error creating GameMode proxy: ...')`
    | DisconnectListeners                // `this.disconnectAll()` of the signal mixin
    | DisconnectProxyHandler(id: nat)    // `_proxy.disconnect(_propsChangedId)`

  /** The state after a step, its effects, and whether a TypeError escaped. */
  datatype Step = Step(watcher: Watcher, effects: seq<Effect>, threw: bool)

  /** What `Gio.DBusProxy.new_finish` gives: a proxy (with the id its
      `connect` returns and its current `ClientCount`), or an error. */
  datatype ProxyCreation = Created(handlerId: nat, remoteCount: Count) | CreationFailed(message: string)

  /** The constructor: no proxy yet, and `client_count` is 0. The proxy
      request itself is asynchronous and completes in `ProxyReady`. */
  function New(hasReadyCallback: bool): (w: Watcher)
    ensures w.proxy.None? && w.clientCount == Some(0) && !Active(w.clientCount)
    ensures w.hasReadyCallback == hasReadyCallback
  {
    Watcher(hasReadyCallback, None, Some(0))
  }

  /** `_onProxyReady`. On failure the error is logged and nothing else
      happens. On success the properties handler is connected, then the
      ready callback (if any) runs, then the count is read once and, only
      when it is positive, `state-changed(true)` and `count-changed(n)` are
      emitted in that order. */
  function ProxyReady(w: Watcher, creation: ProxyCreation): (r: Step)
    ensures !r.threw
    ensures creation.CreationFailed? ==>
              r.watcher == w && r.effects == [LogProxyError("error creating GameMode proxy: " + creation.message)]
    ensures creation.Created? ==>
              && r.watcher.proxy == Some(ProxyLink(creation.handlerId))
              && r.watcher.clientCount == creation.remoteCount
              && |r.effects| >= (if w.hasReadyCallback then 2 else 1)
              && r.effects[0] == ConnectPropertiesChanged(creation.handlerId)
    ensures creation.Created? ==> (CallReady in r.effects <==> w.hasReadyCallback)
    ensures creation.Created? && w.hasReadyCallback ==> r.effects[1] == CallReady
    ensures creation.Created? ==>
              var emitted := r.effects[(if w.hasReadyCallback then 2 else 1)..];
              (Active(creation.remoteCount) ==> emitted == [Emit(StateChanged(true)), Emit(CountChanged(creation.remoteCount))])
              && (!Active(creation.remoteCount) ==> emitted == [])
  {
    match creation
    case CreationFailed(msg) => Step(w, [LogProxyError("error creating GameMode proxy: " + msg)], false)
    case Created(id, n) =>
      var ready := if w.hasReadyCallback then [CallReady] else [];
      var initial := if Active(n) then [Emit(StateChanged(true)), Emit(CountChanged(n))] else [];
      Step(w.(proxy := Some(ProxyLink(id)), clientCount := n),
           [ConnectPropertiesChanged(id)] + ready + initial, false)
  }

  /** `_onPropertiesChanged(proxy, properties)`. `changedKeys` are the keys of
      the unpacked payload; `remoteCount` is what `this._proxy.ClientCount`
      reads at that moment. A payload without `ClientCount` returns at once. */
  function PropertiesChanged(w: Watcher, changedKeys: set<string>, remoteCount: Count): (r: Step)
    ensures "ClientCount" !in changedKeys ==> r == Step(w, [], false)
    ensures r.threw <==> "ClientCount" in changedKeys && w.proxy.None?
    ensures r.threw ==> r.watcher == w && r.effects == []
    ensures "ClientCount" in changedKeys && !r.threw ==>
              r.watcher == w.(clientCount := remoteCount) && SignalsOnly(r.effects)
  {
    if "ClientCount" !in changedKeys then Step(w, [], false)
    else if w.proxy.None? then Step(w, [], true)  // reading ClientCount of null throws
    else
      var beforeN := w.clientCount;
      var beforeOn := Active(w.clientCount);
      var afterOn := Active(remoteCount);
      var stateSignal := if beforeOn != afterOn then [Emit(StateChanged(afterOn))] else [];
      var countSignal := if beforeN != remoteCount then [Emit(CountChanged(remoteCount))] else [];
      Step(w.(clientCount := remoteCount), stateSignal + countSignal, false)
  }

  predicate SignalsOnly(effects: seq<Effect>)
  {
    forall i :: 0 <= i < |effects| ==> effects[i].Emit?
  }

  /** The edge and de-duplication rules of one properties-changed step. */
  lemma PropertiesChangedEdges(w: Watcher, changedKeys: set<string>, remoteCount: Count)
    requires "ClientCount" in changedKeys && w.proxy.Some?
    ensures var r := PropertiesChanged(w, changedKeys, remoteCount);
            && |r.effects| <= 2
            && (forall a :: Emit(StateChanged(a)) in r.effects <==>
                  Active(w.clientCount) != Active(remoteCount) && a == Active(remoteCount))
            && (forall n :: Emit(CountChanged(n)) in r.effects <==>
                  w.clientCount != remoteCount && n == remoteCount)
            && (w.clientCount == remoteCount ==> r.effects == [])
            && (|r.effects| == 2 ==> r.effects[0].signal.StateChanged? && r.effects[1].signal.CountChanged?)
  {
  }

  /** The `clientCount` getter: the proxy's value, or 0 without a proxy. */
  function ClientCount(w: Watcher, remoteCount: Count): (r: Count)
    ensures w.proxy.None? ==> r == Some(0)
    ensures w.proxy.Some? ==> r == remoteCount
  {
    if w.proxy.Some? then remoteCount else Some(0)
  }

  /** `close()`: the client's own signal listeners are dropped; then, only if
      a proxy exists, its handler is disconnected and the proxy dropped.
      `client_count` keeps its last value. */
  function Close(w: Watcher): (r: Step)
    ensures !r.threw && r.watcher.proxy.None?
    ensures r.watcher.clientCount == w.clientCount
    ensures |r.effects| >= 1 && r.effects[0] == DisconnectListeners
    ensures w.proxy.None? ==> r.effects == [DisconnectListeners] && r.watcher == w
    ensures w.proxy.Some? ==> r.effects == [DisconnectListeners, DisconnectProxyHandler(w.proxy.value.propsChangedId)]
  {
    match w.proxy
    case None => Step(w, [DisconnectListeners], false)
    case Some(link) => Step(w.(proxy := None), [DisconnectListeners, DisconnectProxyHandler(link.propsChangedId)], false)
  }

  /** A second `close()` touches no proxy and changes nothing. */
  lemma CloseTwice(w: Watcher)
    ensures var once := Close(w).watcher;
            Close(once) == Step(once, [DisconnectListeners], false)
  {
  }

  // ---------------------------------------------------------------------
  // registerGame / unregisterGame

  /** How the remote call completes: the daemon's status, or a transport error. */
  datatype Reply = Returned(status: Int32) | TransportError(error: string)

  /** The arguments of one invocation of the caller's callback. */
  datatype CallbackArgs = CallbackArgs(status: int, error: Option<string>)

  /** `ThrewNoProxy`: `this._proxy` is null, the call throws a TypeError
      synchronously and the callback is never invoked. Otherwise the remote
      method is called with the pid and the callback invocations follow. */
  datatype CallOutcome =
    | ThrewNoProxy
    | Dispatched(remoteMethod: string, pid: Int32, invocations: seq<CallbackArgs>)

  function RemoteCall(w: Watcher, remoteMethod: string, pid: Int32, reply: Reply): CallOutcome
  {
    if w.proxy.None? then ThrewNoProxy
    else match reply
      case TransportError(e) => Dispatched(remoteMethod, pid, [CallbackArgs(-2, Some(e))])
      case Returned(status) => Dispatched(remoteMethod, pid, [CallbackArgs(status, None)])
  }

  /** `registerGame(pid, callback)`: the callback runs exactly once, with
      (-2, error) on a transport error and (status, null) otherwise. */
  function RegisterGame(w: Watcher, pid: Int32, reply: Reply): (r: CallOutcome)
    ensures r.ThrewNoProxy? <==> w.proxy.None?
    ensures r.Dispatched? ==> r.remoteMethod == "RegisterGame" && r.pid == pid && |r.invocations| == 1
    ensures r.Dispatched? && reply.TransportError? ==> r.invocations[0] == CallbackArgs(-2, Some(reply.error))
    ensures r.Dispatched? && reply.Returned? ==> r.invocations[0] == CallbackArgs(reply.status, None)
  {
    RemoteCall(w, "RegisterGame", pid, reply)
  }

  /** `unregisterGame(pid, callback)`: the same mapping for UnregisterGame. */
  function UnregisterGame(w: Watcher, pid: Int32, reply: Reply): (r: CallOutcome)
    ensures r.ThrewNoProxy? <==> w.proxy.None?
    ensures r.Dispatched? ==> r.remoteMethod == "UnregisterGame" && r.pid == pid && |r.invocations| == 1
    ensures r.Dispatched? && reply.TransportError? ==> r.invocations[0] == CallbackArgs(-2, Some(reply.error))
    ensures r.Dispatched? && reply.Returned? ==> r.invocations[0] == CallbackArgs(reply.status, None)
  {
    RemoteCall(w, "UnregisterGame", pid, reply)
  }

  /** The two calls differ only in the remote method they name. The
      callback's error is set exactly on a transport error, and a status of
      -2 without an error can only be the daemon's own answer. */
  lemma RegisterUnregisterAgree(w: Watcher, pid: Int32, reply: Reply)
    ensures var r := RegisterGame(w, pid, reply);
            UnregisterGame(w, pid, reply) == (if r.Dispatched? then r.(remoteMethod := "UnregisterGame") else r)
    ensures var r := RegisterGame(w, pid, reply);
            r.Dispatched? ==>
              && (r.invocations[0].error.Some? <==> reply.TransportError?)
              && (r.invocations[0].status == -2 && r.invocations[0].error.None? ==> reply == Returned(-2))
  {
  }

  // ---------------------------------------------------------------------
  // Traces of property changes

  /** One properties-changed notification as the handler sees it. */
  datatype Change = Change(changedKeys: set<string>, remoteCount: Count)

  /** A connected watcher handling a sequence of notifications in order. */
  function Run(w: Watcher, changes: seq<Change>): (r: Step)
    requires w.proxy.Some?
    ensures r.watcher.proxy == w.proxy && !r.threw
    decreases |changes|
  {
    if changes == [] then Step(w, [], false)
    else
      var first := PropertiesChanged(w, changes[0].changedKeys, changes[0].remoteCount);
      var rest := Run(first.watcher, changes[1..]);
      Step(rest.watcher, first.effects + rest.effects, false)
  }

  /** Starting from activity `a`, every `state-changed` differs from the one
      before it (the first differs from `a`). */
  predicate Alternates(a: bool, effects: seq<Effect>)
    decreases |effects|
  {
    if effects == [] then true
    else if effects[0].Emit? && effects[0].signal.StateChanged? then
      effects[0].signal.active != a && Alternates(effects[0].signal.active, effects[1..])
    else Alternates(a, effects[1..])
  }

  /** The activity the last `state-changed` reported, or `a` if none. */
  function LastActive(a: bool, effects: seq<Effect>): bool
    decreases |effects|
  {
    if effects == [] then a
    else if effects[0].Emit? && effects[0].signal.StateChanged? then LastActive(effects[0].signal.active, effects[1..])
    else LastActive(a, effects[1..])
  }

  /** Starting from count `n`, every `count-changed` carries a new value. */
  predicate CountsChange(n: Count, effects: seq<Effect>)
    decreases |effects|
  {
    if effects == [] then true
    else if effects[0].Emit? && effects[0].signal.CountChanged? then
      effects[0].signal.count != n && CountsChange(effects[0].signal.count, effects[1..])
    else CountsChange(n, effects[1..])
  }

  /** The count the last `count-changed` reported, or `n` if none. */
  function LastCount(n: Count, effects: seq<Effect>): Count
    decreases |effects|
  {
    if effects == [] then n
    else if effects[0].Emit? && effects[0].signal.CountChanged? then LastCount(effects[0].signal.count, effects[1..])
    else LastCount(n, effects[1..])
  }

  lemma {:induction false} AlternatesAppend(a: bool, e1: seq<Effect>, e2: seq<Effect>)
    ensures Alternates(a, e1 + e2) <==> Alternates(a, e1) && Alternates(LastActive(a, e1), e2)
    ensures LastActive(a, e1 + e2) == LastActive(LastActive(a, e1), e2)
    decreases |e1|
  {
    if e1 != [] {
      assert (e1 + e2)[0] == e1[0] && (e1 + e2)[1..] == e1[1..] + e2;
      if e1[0].Emit? && e1[0].signal.StateChanged? {
        AlternatesAppend(e1[0].signal.active, e1[1..], e2);
      } else {
        AlternatesAppend(a, e1[1..], e2);
      }
    } else {
      assert e1 + e2 == e2;
    }
  }

  lemma {:induction false} CountsChangeAppend(n: Count, e1: seq<Effect>, e2: seq<Effect>)
    ensures CountsChange(n, e1 + e2) <==> CountsChange(n, e1) && CountsChange(LastCount(n, e1), e2)
    ensures LastCount(n, e1 + e2) == LastCount(LastCount(n, e1), e2)
    decreases |e1|
  {
    if e1 != [] {
      assert (e1 + e2)[0] == e1[0] && (e1 + e2)[1..] == e1[1..] + e2;
      if e1[0].Emit? && e1[0].signal.CountChanged? {
        CountsChangeAppend(e1[0].signal.count, e1[1..], e2);
      } else {
        CountsChangeAppend(n, e1[1..], e2);
      }
    } else {
      assert e1 + e2 == e2;
    }
  }

  /** One step keeps the signals honest: the state signals alternate and end
      at the new activity, the count signals are all changes and end at the
      new count. */
  lemma StepSignals(w: Watcher, c: Change)
    requires w.proxy.Some?
    ensures var r := PropertiesChanged(w, c.changedKeys, c.remoteCount);
            && Alternates(Active(w.clientCount), r.effects)
            && LastActive(Active(w.clientCount), r.effects) == Active(r.watcher.clientCount)
            && CountsChange(w.clientCount, r.effects)
            && LastCount(w.clientCount, r.effects) == r.watcher.clientCount
  {
    var r := PropertiesChanged(w, c.changedKeys, c.remoteCount);
    if "ClientCount" in c.changedKeys {
      var e := r.effects;
      if |e| == 2 {
        var tail := e[1..];
        assert tail[1..] == [];
        assert tail[0].signal.CountChanged?;
        assert LastActive(e[0].signal.active, tail) == LastActive(e[0].signal.active, tail[1..]);
        assert LastActive(Active(w.clientCount), e) == LastActive(e[0].signal.active, tail);
        assert LastCount(tail[0].signal.count, tail[1..]) == c.remoteCount;
        assert LastCount(w.clientCount, e) == LastCount(w.clientCount, tail);
      } else if |e| == 1 {
        assert e[1..] == [];
      }
    }
  }

  /** Over any sequence of notifications, listeners never see the same
      `state-changed` value twice in a row nor an unchanged `count-changed`,
      and the last values they saw are the watcher's final activity and count. */
  lemma {:induction false} RunSignals(w: Watcher, changes: seq<Change>)
    requires w.proxy.Some?
    ensures var r := Run(w, changes);
            && Alternates(Active(w.clientCount), r.effects)
            && LastActive(Active(w.clientCount), r.effects) == Active(r.watcher.clientCount)
            && CountsChange(w.clientCount, r.effects)
            && LastCount(w.clientCount, r.effects) == r.watcher.clientCount
    decreases |changes|
  {
    if changes != [] {
      var first := PropertiesChanged(w, changes[0].changedKeys, changes[0].remoteCount);
      StepSignals(w, changes[0]);
      RunSignals(first.watcher, changes[1..]);
      var rest := Run(first.watcher, changes[1..]);
      AlternatesAppend(Active(w.clientCount), first.effects, rest.effects);
      CountsChangeAppend(w.clientCount, first.effects, rest.effects);
    }
  }

  /** Effects that emit nothing leave both signal histories where they were. */
  lemma {:induction false} NoEmits(a: bool, n: Count, effects: seq<Effect>)
    requires forall i :: 0 <= i < |effects| ==> !effects[i].Emit?
    ensures Alternates(a, effects) && LastActive(a, effects) == a
    ensures CountsChange(n, effects) && LastCount(n, effects) == n
    decreases |effects|
  {
    if effects != [] {
      NoEmits(a, n, effects[1..]);
    }
  }

  /** What listeners see when the proxy comes up: starting from the
      constructor's inactive 0, the signals alternate and carry new values,
      and end at the proxy's count (when that count is a non-negative number). */
  lemma ReadySignals(hasReadyCallback: bool, handlerId: nat, n: Count)
    ensures var ready := ProxyReady(New(hasReadyCallback), Created(handlerId, n));
            && Alternates(false, ready.effects)
            && LastActive(false, ready.effects) == Active(n)
            && (n.Some? && n.value >= 0 ==> CountsChange(Some(0), ready.effects) && LastCount(Some(0), ready.effects) == n)
  {
    var ready := ProxyReady(New(hasReadyCallback), Created(handlerId, n));
    var pre := [ConnectPropertiesChanged(handlerId)] + (if hasReadyCallback then [CallReady] else []);
    var initial := if Active(n) then [Emit(StateChanged(true)), Emit(CountChanged(n))] else [];
    assert ready.effects == pre + initial;
    NoEmits(false, Some(0), pre);
    AlternatesAppend(false, pre, initial);
    CountsChangeAppend(Some(0), pre, initial);
    if Active(n) {
      var tail: seq<Effect> := [Emit(CountChanged(n))];
      assert initial[1..] == tail && tail[1..] == [];
      assert Alternates(true, tail) && LastActive(true, tail) == true;
      assert CountsChange(n, tail[1..]) && LastCount(n, tail[1..]) == n;
      assert CountsChange(Some(0), tail) && LastCount(Some(0), tail) == n;
    }
  }

  /** From construction on: the proxy comes up with count `n`, then the
      notifications `changes` arrive. The `state-changed` values listeners
      see alternate from inactive and end at the final activity. When the
      proxy came up holding a non-negative count, every `count-changed`
      carries a new value from the constructor's 0 on, and the last one is
      the final count. (A proxy with no cached count, null, moves the cache
      from 0 to null without a signal, so a later 0 is announced again.) */
  lemma {:induction false} ReadyThenRun(hasReadyCallback: bool, handlerId: nat, n: Count, changes: seq<Change>)
    ensures var ready := ProxyReady(New(hasReadyCallback), Created(handlerId, n));
            var run := Run(ready.watcher, changes);
            && Alternates(false, ready.effects + run.effects)
            && LastActive(false, ready.effects + run.effects) == Active(run.watcher.clientCount)
            && (n.Some? && n.value >= 0 ==>
                  && CountsChange(Some(0), ready.effects + run.effects)
                  && LastCount(Some(0), ready.effects + run.effects) == run.watcher.clientCount)
  {
    var ready := ProxyReady(New(hasReadyCallback), Created(handlerId, n));
    ReadySignals(hasReadyCallback, handlerId, n);
    RunSignals(ready.watcher, changes);
    var run := Run(ready.watcher, changes);
    AlternatesAppend(false, ready.effects, run.effects);
    CountsChangeAppend(Some(0), ready.effects, run.effects);
  }
}
