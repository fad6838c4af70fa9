/** The subscription bookkeeping written out twice in the source, once in
    the extension and once in its menu (`_connect` / `_disconnectAll`): a
    JavaScript Map from signal source to the Set of handler ids connected on
    it. Connecting tries `target.connect` and falls back to
    `target.connectSignal` when that throws; teardown tries `disconnect` and
    falls back to `disconnectSignal` for every recorded id. */
module Registry {
  import opened Base

  /** A JavaScript value used as a signal source: null/undefined, or an object. */
  datatype Target = Null | Obj(name: string)

  predicate Truthy(t: Target)
  {
    t.Obj?
  }

  /** Whatever `connect` or `connectSignal` returned for one handler. */
  type HandlerId = int

  /** One Map entry: a source and its Set of ids, in insertion order. */
  datatype Entry = Entry(target: Target, ids: seq<HandlerId>)

  /** `this._connections`. JavaScript Maps and Sets iterate in insertion
      order, so the model keeps both as sequences. */
  type Connections = seq<Entry>

  predicate Distinct<T(==)>(s: seq<T>)
  {
    forall i, j :: 0 <= i < j < |s| ==> s[i] != s[j]
  }

  /** What a Map of Sets filled by `_connect` looks like: keys are distinct
      truthy objects and no Set holds an id twice. */
  predicate Valid(c: Connections)
  {
    && (forall i :: 0 <= i < |c| ==> Truthy(c[i].target) && Distinct(c[i].ids))
    && (forall i, j :: 0 <= i < j < |c| ==> c[i].target != c[j].target)
  }

  /** `new Map()`. */
  function Empty(): (c: Connections)
    ensures Valid(c) && View(c) == map[]
  {
    []
  }

  /** Position of `t`'s entry, as `Map.has` / `Map.get` find it. */
  function IndexOf(c: Connections, t: Target): (r: Option<nat>)
    ensures r.Some? ==> r.value < |c| && c[r.value].target == t
    ensures r.Some? ==> forall i :: 0 <= i < r.value ==> c[i].target != t
    ensures r.None? ==> forall i :: 0 <= i < |c| ==> c[i].target != t
  {
    if c == [] then None
    else if c[0].target == t then Some(0)
    else match IndexOf(c[1..], t)
      case None => None
      case Some(k) => Some(k + 1)
  }

  /** The ids recorded under `t` (empty when `t` has no entry). */
  function IdsOf(c: Connections, t: Target): set<HandlerId>
  {
    match IndexOf(c, t)
    case None => {}
    case Some(k) => set x | x in c[k].ids
  }

  /** The sources that have an entry. */
  function Keys(c: Connections): set<Target>
  {
    set i | 0 <= i < |c| :: c[i].target
  }

  /** The registry as an unordered map from source to set of ids, built
      entry by entry; an earlier entry for the same source wins, as
      `Map.get` finds it. */
  function View(c: Connections): map<Target, set<HandlerId>>
  {
    if c == [] then map[]
    else View(c[1..])[c[0].target := set x | x in c[0].ids]
  }

  /** Reference for `View`: each source with an entry, mapped to what a
      lookup of that source returns. */
  function LookupView(c: Connections): map<Target, set<HandlerId>>
  {
    map t | t in Keys(c) :: IdsOf(c, t)
  }

  lemma KeysIndexOf(c: Connections, u: Target)
    ensures u in Keys(c) <==> IndexOf(c, u).Some?
  {
    if IndexOf(c, u).Some? {
      assert c[IndexOf(c, u).value].target == u;
    }
  }

  /** A registry with a view `m` is one whose lookups agree with `m`. */
  lemma LookupEquality(c: Connections, m: map<Target, set<HandlerId>>)
    requires forall u :: IndexOf(c, u).Some? <==> u in m
    requires forall u :: u in m ==> IdsOf(c, u) == m[u]
    ensures LookupView(c) == m
  {
    forall u
      ensures u in Keys(c) <==> u in m
    {
      KeysIndexOf(c, u);
    }
  }

  /** The entry-by-entry view and the lookup view agree on every registry. */
  lemma {:induction false} ViewIsLookup(c: Connections)
    ensures View(c) == LookupView(c)
  {
    if c == [] {
      assert Keys(c) == {};
    } else {
      ViewIsLookup(c[1..]);
      var t0 := c[0].target;
      var m := LookupView(c[1..])[t0 := set x | x in c[0].ids];
      forall u
        ensures IndexOf(c, u).Some? <==> u in m
        ensures u in m ==> IdsOf(c, u) == m[u]
      {
        KeysIndexOf(c[1..], u);
        if u != t0 && IndexOf(c[1..], u).Some? {
          var k := IndexOf(c[1..], u).value;
          assert IndexOf(c, u) == Some(k + 1);
          assert c[k + 1] == c[1..][k];
        }
      }
      LookupEquality(c, m);
    }
  }

  /** What the view says about one source: it has an entry exactly when a
      lookup finds one, and then holds the ids recorded there. */
  lemma ViewAt(c: Connections, u: Target)
    ensures u in View(c) <==> IndexOf(c, u).Some?
    ensures u in View(c) ==> View(c)[u] == IdsOf(c, u)
  {
    ViewIsLookup(c);
    KeysIndexOf(c, u);
  }

  /** Two registries have the same view when they agree on which sources
      have entries and on every source's set. */
  lemma ViewEquality(c: Connections, m: map<Target, set<HandlerId>>)
    requires forall u :: IndexOf(c, u).Some? <==> u in m
    requires forall u :: u in m ==> IdsOf(c, u) == m[u]
    ensures View(c) == m
  {
    LookupEquality(c, m);
    ViewIsLookup(c);
  }

  /** What calling the two connect APIs on a source does: the id each
      returns, or None when the call throws. */
  datatype ConnectApi = ConnectApi(connect: Option<HandlerId>, connectSignal: Option<HandlerId>)

  /** The calls `_connect` makes on a source, in order. */
  datatype Call = ConnectCall(target: Target, signal: string) | ConnectSignalCall(target: Target, signal: string)

  /** The id `_connect` records: what `connect` returned, or else what
      `connectSignal` returned; None when both threw. */
  function IdOf(api: ConnectApi): (r: Option<HandlerId>)
    ensures r.Some? <==> api.connect.Some? || api.connectSignal.Some?
    ensures api.connect.Some? ==> r == api.connect
  {
    if api.connect.Some? then api.connect else api.connectSignal
  }

  /** The registry after `_connect`, the calls it made, and whether an
      exception escaped it (both APIs threw). */
  datatype ConnectOutcome = ConnectOutcome(connections: Connections, calls: seq<Call>, threw: bool)

  /** `_connect(target, signal, hook)`. A falsy target is ignored. Otherwise
      the target's entry is created first, then `connect` is tried, then
      `connectSignal` only if `connect` threw; the id obtained is added to
      the target's set. When `connectSignal` throws too, the exception
      propagates and the (possibly new, empty) entry stays behind. */
  function Connect(c: Connections, target: Target, signal: string, api: ConnectApi): (r: ConnectOutcome)
    requires Valid(c)
    ensures Valid(r.connections)
    ensures !Truthy(target) ==> r == ConnectOutcome(c, [], false)
    ensures Truthy(target) ==>
              r.calls == [ConnectCall(target, signal)] + (if api.connect.None? then [ConnectSignalCall(target, signal)] else [])
    ensures ConnectSignalCall(target, signal) in r.calls <==> Truthy(target) && api.connect.None?
    ensures r.threw <==> Truthy(target) && api.connect.None? && api.connectSignal.None?
    ensures Truthy(target) ==> target in View(r.connections)
    ensures View(r.connections).Keys == View(c).Keys + (if Truthy(target) then {target} else {})
    ensures Truthy(target) && api.connect.Some? ==>
              View(r.connections) == View(c)[target := IdsOf(c, target) + {api.connect.value}]
    ensures Truthy(target) && api.connect.None? && api.connectSignal.Some? ==>
              View(r.connections) == View(c)[target := IdsOf(c, target) + {api.connectSignal.value}]
    ensures Truthy(target) && IdOf(api).Some? ==>
              View(r.connections) == View(c)[target := IdsOf(c, target) + {IdOf(api).value}]
    ensures r.threw ==> View(r.connections) == View(c)[target := IdsOf(c, target)]
  {
    if !Truthy(target) then ConnectOutcome(c, [], false)
    else if api.connect.Some? then
      ConnectOutcome(Record(c, target, api.connect.value), [ConnectCall(target, signal)], false)
    else
      var calls := [ConnectCall(target, signal), ConnectSignalCall(target, signal)];
      if api.connectSignal.Some? then ConnectOutcome(Record(c, target, api.connectSignal.value), calls, false)
      else ConnectOutcome(EnsureEntry(c, target), calls, true)
  }

  /** Updating the set of one source in the view sets that source's ids and
      leaves the ids of every other source alone. */
  lemma IdsOfUpdate(c0: Connections, c1: Connections, t: Target, ids: set<HandlerId>, u: Target)
    requires View(c1) == View(c0)[t := ids]
    ensures IdsOf(c1, t) == ids
    ensures u != t ==> IdsOf(c1, u) == IdsOf(c0, u)
  {
    ViewAt(c0, u);
    ViewAt(c1, u);
    ViewAt(c1, t);
  }

  /** The entry for `t` is made if missing, then `id` is added to its set. */
  function Record(c: Connections, t: Target, id: HandlerId): (r: Connections)
    requires Valid(c) && Truthy(t)
    ensures Valid(r)
    ensures t in View(r)
    ensures View(r) == View(c)[t := IdsOf(c, t) + {id}]
    ensures View(r).Keys == View(c).Keys + {t}
  {
    var c1 := EnsureEntry(c, t);
    var k := IndexOf(c1, t).value;
    assert c1[k].target == t;
    var r := AddId(c1, k, id);
    assert View(r) == View(c1)[t := IdsOf(c, t) + {id}];
    assert View(c1)[t := IdsOf(c, t) + {id}] == View(c)[t := IdsOf(c, t)][t := IdsOf(c, t) + {id}];
    KeysOfUpdate(View(c), t, IdsOf(c, t) + {id});
    r
  }

  /** `if (!map.has(target)) map.set(target, new Set())`. */
  function EnsureEntry(c: Connections, t: Target): (r: Connections)
    requires Valid(c) && Truthy(t)
    ensures Valid(r) && IndexOf(r, t).Some?
    ensures t in View(r)
    ensures View(r) == View(c)[t := IdsOf(c, t)]
    ensures View(r).Keys == View(c).Keys + {t}
    ensures IdsOf(r, t) == IdsOf(c, t)
  {
    KeysOfUpdate(View(c), t, IdsOf(c, t));
    if IndexOf(c, t).Some? then
      ViewAt(c, t);
      assert View(c)[t := IdsOf(c, t)] == View(c);
      c
    else
      var r := c + [Entry(t, [])];
      assert IdsOf(c, t) == {};
      assert (set x: HandlerId | x in []) == {};
      IndexOfAppend(c, Entry(t, []), t);
      ViewAppend(c, Entry(t, []));
      KeysIndexOf(r, t);
      r
  }

  /** `set.add(id)` on the entry at position `k`. */
  function AddId(c: Connections, k: nat, id: HandlerId): (r: Connections)
    requires Valid(c) && k < |c|
    ensures Valid(r)
    ensures View(r) == View(c)[c[k].target := IdsOf(c, c[k].target) + {id}]
  {
    var e := c[k];
    var ids := if id in e.ids then e.ids else e.ids + [id];
    assert IndexOf(c, e.target) == Some(k);
    assert (set x | x in ids) == IdsOf(c, e.target) + {id};
    ViewReplace(c, k, ids);
    c[k := Entry(e.target, ids)]
  }

  lemma KeysOfUpdate<K, V>(m: map<K, V>, k: K, v: V)
    ensures m[k := v].Keys == m.Keys + {k}
  {
  }

  lemma {:induction false} IndexOfAppend(c: Connections, e: Entry, u: Target)
    ensures IndexOf(c + [e], u) ==
      (if IndexOf(c, u).Some? then IndexOf(c, u) else if e.target == u then Some(|c|) else None)
  {
    if c != [] {
      assert (c + [e])[1..] == c[1..] + [e];
      IndexOfAppend(c[1..], e, u);
    }
  }

  lemma {:induction false} IndexOfReplace(c: Connections, k: nat, ids: seq<HandlerId>, u: Target)
    requires k < |c|
    ensures IndexOf(c[k := Entry(c[k].target, ids)], u) == IndexOf(c, u)
  {
    if c != [] && k > 0 {
      assert c[k := Entry(c[k].target, ids)][1..] == c[1..][k - 1 := Entry(c[k].target, ids)];
      IndexOfReplace(c[1..], k - 1, ids, u);
    }
  }

  /** Appending a fresh entry adds one key and keeps every other key's set. */
  lemma ViewAppend(c: Connections, e: Entry)
    requires IndexOf(c, e.target).None?
    ensures View(c + [e]) == View(c)[e.target := set x | x in e.ids]
  {
    var r := c + [e];
    var m := View(c)[e.target := set x | x in e.ids];
    forall u
      ensures IndexOf(r, u).Some? <==> u in m
      ensures u in m ==> IdsOf(r, u) == m[u]
    {
      IndexOfAppend(c, e, u);
      ViewAt(c, u);
      if u in m && u != e.target {
        var k := IndexOf(c, u).value;
        assert r[k] == c[k];
      }
    }
    ViewEquality(r, m);
  }

  /** Changing the ids of one entry changes that key's set and nothing else. */
  lemma ViewReplace(c: Connections, k: nat, ids: seq<HandlerId>)
    requires Valid(c) && k < |c|
    ensures View(c[k := Entry(c[k].target, ids)]) == View(c)[c[k].target := set x | x in ids]
  {
    var t := c[k].target;
    var r := c[k := Entry(t, ids)];
    var m := View(c)[t := set x | x in ids];
    assert IndexOf(c, t) == Some(k);
    forall u
      ensures IndexOf(r, u).Some? <==> u in m
      ensures u in m ==> IdsOf(r, u) == m[u]
    {
      IndexOfReplace(c, k, ids, u);
      ViewAt(c, u);
      if u in m && u != t {
        var i := IndexOf(c, u).value;
        assert r[i] == c[i];
      }
    }
    ViewEquality(r, m);
  }

  // ---------------------------------------------------------------------
  // Teardown

  /** The outcome of one `disconnect` attempt: removed by `disconnect`,
      removed by the `disconnectSignal` fallback, or both threw (an error
      line is logged and the loop goes on). */
  datatype Removal = Disconnected | DisconnectedBySignal | Failed

  datatype Attempt = Attempt(target: Target, id: HandlerId, removal: Removal)

  /** The attempts a teardown made, in order, and whether it threw. */
  datatype Teardown = Teardown(attempts: seq<Attempt>, threw: bool)

  /** The (source, id) pairs a teardown visits, in Map and Set order; falsy
      sources are skipped. */
  function Handles(c: Connections): (r: seq<(Target, HandlerId)>)
  {
    if c == [] then []
    else Handles(c[..|c| - 1]) + EntryHandles(c[|c| - 1])
  }

  function EntryHandles(e: Entry): (r: seq<(Target, HandlerId)>)
    ensures |r| == if Truthy(e.target) then |e.ids| else 0
    ensures forall k :: 0 <= k < |r| ==> r[k] == (e.target, e.ids[k])
  {
    if Truthy(e.target) then seq(|e.ids|, k requires 0 <= k < |e.ids| => (e.target, e.ids[k])) else []
  }

  /** One id: `disconnect`, and `disconnectSignal` only if that threw.
      `disconnect` / `disconnectSignal` say whether that call returns
      normally for the given source and id. */
  function TryRemove(h: (Target, HandlerId), disconnect: (Target, HandlerId) -> bool,
                     disconnectSignal: (Target, HandlerId) -> bool): Attempt
  {
    Attempt(h.0, h.1,
      if disconnect(h.0, h.1) then Disconnected
      else if disconnectSignal(h.0, h.1) then DisconnectedBySignal
      else Failed)
  }

  /** Every handle of `hs`, in order, tried once. */
  function TryAll(hs: seq<(Target, HandlerId)>, disconnect: (Target, HandlerId) -> bool,
                  disconnectSignal: (Target, HandlerId) -> bool): (r: seq<Attempt>)
    ensures |r| == |hs|
    ensures forall k :: 0 <= k < |r| ==> r[k].target == hs[k].0 && r[k].id == hs[k].1
    ensures forall k :: 0 <= k < |r| ==> (r[k].removal == Disconnected <==> disconnect(hs[k].0, hs[k].1))
    ensures forall k :: 0 <= k < |r| ==>
              (r[k].removal == Failed <==> !disconnect(hs[k].0, hs[k].1) && !disconnectSignal(hs[k].0, hs[k].1))
  {
    if hs == [] then []
    else TryAll(hs[..|hs| - 1], disconnect, disconnectSignal) + [TryRemove(hs[|hs| - 1], disconnect, disconnectSignal)]
  }

  /** Reference for the intended teardown: every handle, in order, tried
      once, and nothing escapes. */
  function IntendedTeardown(c: Connections, disconnect: (Target, HandlerId) -> bool,
                            disconnectSignal: (Target, HandlerId) -> bool): Teardown
  {
    Teardown(TryAll(Handles(c), disconnect, disconnectSignal), false)
  }

  lemma {:induction false} TryAllAppend(a: seq<(Target, HandlerId)>, b: seq<(Target, HandlerId)>,
                                       disconnect: (Target, HandlerId) -> bool,
                                       disconnectSignal: (Target, HandlerId) -> bool)
    ensures TryAll(a + b, disconnect, disconnectSignal)
         == TryAll(a, disconnect, disconnectSignal) + TryAll(b, disconnect, disconnectSignal)
    decreases |b|
  {
    if b == [] {
      assert a + b == a;
    } else {
      var b' := b[..|b| - 1];
      assert (a + b)[..|a + b| - 1] == a + b';
      TryAllAppend(a, b', disconnect, disconnectSignal);
    }
  }

  /** The inner loop of `_disconnectAll()`: every id of one entry, in Set order. */
  method DisconnectEntry(e: Entry, disconnect: (Target, HandlerId) -> bool,
                         disconnectSignal: (Target, HandlerId) -> bool) returns (attempts: seq<Attempt>)
    requires Truthy(e.target)
    ensures attempts == TryAll(EntryHandles(e), disconnect, disconnectSignal)
  {
    var eh := EntryHandles(e);
    attempts := [];
    var j := 0;
    while j < |e.ids|
      invariant 0 <= j <= |e.ids|
      invariant attempts == TryAll(eh[..j], disconnect, disconnectSignal)
    {
      var id := e.ids[j];
      var removal;
      if disconnect(e.target, id) {
        removal := Disconnected;
      } else if disconnectSignal(e.target, id) {
        removal := DisconnectedBySignal;
      } else {
        removal := Failed;
      }
      assert eh[..j + 1][..j] == eh[..j];
      attempts := attempts + [Attempt(e.target, id, removal)];
      j := j + 1;
    }
    assert eh[..j] == eh;
  }

  /** `_disconnectAll()` with the Map it evidently means (`this._connections`):
      a loop over every entry, skipping falsy sources, and over every id. A
      failure on one id is recorded and never stops the loops. */
  method DisconnectAll(c: Connections, disconnect: (Target, HandlerId) -> bool,
                       disconnectSignal: (Target, HandlerId) -> bool) returns (r: Teardown)
    ensures !r.threw
    ensures |r.attempts| == |Handles(c)|
    ensures forall k :: 0 <= k < |r.attempts| ==>
              r.attempts[k].target == Handles(c)[k].0 && r.attempts[k].id == Handles(c)[k].1
    ensures forall k :: 0 <= k < |r.attempts| ==>
              (r.attempts[k].removal == Disconnected <==> disconnect(Handles(c)[k].0, Handles(c)[k].1))
    ensures forall k :: 0 <= k < |r.attempts| ==>
              (r.attempts[k].removal == Failed <==>
                 !disconnect(Handles(c)[k].0, Handles(c)[k].1) && !disconnectSignal(Handles(c)[k].0, Handles(c)[k].1))
    ensures r == IntendedTeardown(c, disconnect, disconnectSignal)
  {
    var attempts: seq<Attempt> := [];
    var i := 0;
    while i < |c|
      invariant 0 <= i <= |c|
      invariant attempts == TryAll(Handles(c[..i]), disconnect, disconnectSignal)
    {
      var e := c[i];
      assert c[..i + 1][..i] == c[..i];
      assert Handles(c[..i + 1]) == Handles(c[..i]) + EntryHandles(e);
      TryAllAppend(Handles(c[..i]), EntryHandles(e), disconnect, disconnectSignal);
      if Truthy(e.target) {
        var more := DisconnectEntry(e, disconnect, disconnectSignal);
        attempts := attempts + more;
      }
      i := i + 1;
    }
    assert c[..|c|] == c;
    r := Teardown(attempts, false);
  }

  /** `_disconnectAll()` as written at src/extension.js:122 and
      src/modules/QuickSettingsMenu.js:122: it iterates `this._conncetions`,
      a field that is never assigned, so `for...of` over `undefined` throws a
      TypeError before any id is tried, whatever the registry holds. */
  function DisconnectAllAsWritten(c: Connections): (r: Teardown)
    ensures r.threw && |r.attempts| == 0
  {
    Teardown([], true)
  }

  /** The misspelt field loses every handle that the intended teardown would remove. */
  lemma AsWrittenTeardownSkipsHandles(c: Connections, disconnect: (Target, HandlerId) -> bool,
                                      disconnectSignal: (Target, HandlerId) -> bool)
    requires |Handles(c)| > 0
    ensures forall h :: h in Handles(c) ==> forall a :: a in DisconnectAllAsWritten(c).attempts ==> (a.target, a.id) != h
    ensures DisconnectAllAsWritten(c) != IntendedTeardown(c, disconnect, disconnectSignal)
  {
  }

  /** Concrete instance: one connection on the session-mode object is left connected. */
  lemma AsWrittenTeardownExample()
    ensures var c := [Entry(Obj("Main.sessionMode"), [7])];
            Handles(c) == [(Obj("Main.sessionMode"), 7)] && DisconnectAllAsWritten(c).attempts == []
  {
    var c := [Entry(Obj("Main.sessionMode"), [7])];
    assert c[..0] == [];
  }

  // ---------------------------------------------------------------------
  // Teardown covers exactly the recorded handles, each once

  lemma {:induction false} HandlesMembership(c: Connections, t: Target, x: HandlerId)
    ensures (t, x) in Handles(c) <==> exists i :: 0 <= i < |c| && c[i].target == t && Truthy(t) && x in c[i].ids
  {
    if c != [] {
      var p := c[..|c| - 1];
      var e := c[|c| - 1];
      HandlesMembership(p, t, x);
      if (t, x) in EntryHandles(e) {
        var k :| 0 <= k < |EntryHandles(e)| && EntryHandles(e)[k] == (t, x);
        assert e.ids[k] == x;
      }
      if Truthy(t) && t == e.target && x in e.ids {
        var k :| 0 <= k < |e.ids| && e.ids[k] == x;
        assert EntryHandles(e)[k] == (t, x);
      }
      forall i | 0 <= i < |p| ensures p[i] == c[i] { }
    }
  }

  lemma {:induction false} HandlesDistinct(c: Connections)
    requires Valid(c)
    ensures Distinct(Handles(c))
    ensures forall k :: 0 <= k < |Handles(c)| ==> Handles(c)[k].0 in Keys(c)
  {
    if c != [] {
      var p := c[..|c| - 1];
      var e := c[|c| - 1];
      assert Valid(p);
      HandlesDistinct(p);
      var hp := Handles(p);
      var he := EntryHandles(e);
      assert Handles(c) == hp + he;
      forall k | 0 <= k < |hp|
        ensures hp[k].0 != e.target && hp[k].0 in Keys(c)
      {
        var i :| 0 <= i < |p| && p[i].target == hp[k].0;
        assert c[i] == p[i];
      }
      assert Distinct(he);
    }
  }

  /** Every id recorded under every source is visited by teardown, and no
      (source, id) pair is visited twice. */
  lemma TeardownVisitsEachHandleOnce(c: Connections)
    requires Valid(c)
    ensures Distinct(Handles(c))
    ensures forall t, x :: (t, x) in Handles(c) <==> t in View(c) && x in View(c)[t]
  {
    HandlesDistinct(c);
    forall t, x
      ensures (t, x) in Handles(c) <==> t in View(c) && x in View(c)[t]
    {
      HandlesMembership(c, t, x);
      ViewAt(c, t);
      if t in View(c) {
        var k := IndexOf(c, t).value;
        if exists i :: 0 <= i < |c| && c[i].target == t && Truthy(t) && x in c[i].ids {
          var i :| 0 <= i < |c| && c[i].target == t && Truthy(t) && x in c[i].ids;
          assert i == k;
        }
      }
    }
  }
}
