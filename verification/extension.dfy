/** The extension object the shell creates (`Extension`): its construction,
    `enable` / `disable`, the indicator it adds and removes with the
    session mode, and its logger. */
module Extension {
  import opened Base
  import LogFormat
  import JsNumber
  import Registry

  /** The prefix of every line this class logs. */
  const Prefix := "Caffeinate Extension: "

  /** The two signal sources `enable` subscribes to. */
  const SessionMode := Registry.Obj("Main.sessionMode")
  const SettingsObject := Registry.Obj("settings")

  /** The settings keys this class reads. */
  datatype Settings = Settings(debugLogging: bool, showInQuickmenu: bool)

  /** `_settings`, whether `_indicator` is set, and `_connections`. */
  datatype Ext = Ext(settings: Settings, hasIndicator: bool, connections: Registry.Connections)

  datatype Effect =
    | Log(kind: LogKind, content: string)  // `_logMessage` wrote `LogMessage(true, kind, content)`
    | Call(call: Registry.Call)
    | CreateIndicator
    | DestroyIndicator
    | Disconnect(attempt: Registry.Attempt)

  datatype Step = Step(ext: Ext, effects: seq<Effect>, threw: bool)

  /** `_logMessage(kind, content)`: the journal line, or None when a debug
      message meets debug logging switched off. */
  function LogMessage(debugLogging: bool, kind: LogKind, content: string): (r: Option<string>)
    ensures r.Some? <==> (kind == Error || debugLogging)
    ensures r.Some? ==> LogFormat.SplitLines(r.value)
                        == LogFormat.Prefixed(Prefix + KindName(kind) + ": ", LogFormat.SplitLines(content))
  {
    LogFormat.LogMessage(Prefix, debugLogging, kind, content)
  }

  /** A `_logMessage` call as an effect: present exactly when the gate lets it through. */
  function LogEffects(s: Settings, kind: LogKind, content: string): (r: seq<Effect>)
    ensures |r| == (if kind == Error || s.debugLogging then 1 else 0)
    ensures forall i :: 0 <= i < |r| ==> r[i].Log?
  {
    if LogFormat.Writes(kind, s.debugLogging) then [Log(kind, content)] else []
  }

  /** The constructor: no indicator and an empty registry. */
  function New(settings: Settings): (r: Step)
    ensures !r.threw && !r.ext.hasIndicator && Registry.View(r.ext.connections) == map[]
    ensures Registry.Valid(r.ext.connections) && r.ext.settings == settings
  {
    Step(Ext(settings, false, Registry.Empty()), LogEffects(settings, Debug, "Extension constructed"), false)
  }

  function CallEffects(calls: seq<Registry.Call>): (r: seq<Effect>)
    ensures |r| == |calls| && forall i :: 0 <= i < |r| ==> r[i] == Call(calls[i])
  {
    if calls == [] then [] else [Call(calls[0])] + CallEffects(calls[1..])
  }

  /** `_connect(target, signal, hook)`, the same rules as the menu's:
      see `Registry.Connect`. The debug lines it logs interpolate the
      JavaScript text of the target and handler and are not modelled. */
  method Connect(e: Ext, target: Registry.Target, signal: string, api: Registry.ConnectApi) returns (r: Step)
    requires Registry.Valid(e.connections)
    ensures Registry.Valid(r.ext.connections)
    ensures r.ext == e.(connections := r.ext.connections)
    ensures !Registry.Truthy(target) ==> r == Step(e, [], false)
    ensures Registry.Truthy(target) ==> r.effects == CallEffects(ConnectCalls(target, signal, api))
    ensures Registry.Truthy(target) ==> Calls(r.effects) == ConnectCalls(target, signal, api)
    ensures r.threw <==> Registry.Truthy(target) && api.connect.None? && api.connectSignal.None?
    ensures Registry.Truthy(target) ==> target in Registry.View(r.ext.connections)
    ensures Registry.View(r.ext.connections).Keys == Registry.View(e.connections).Keys + (if Registry.Truthy(target) then {target} else {})
    ensures Registry.Truthy(target) && Registry.IdOf(api).Some? ==>
              Registry.View(r.ext.connections)
              == Registry.View(e.connections)[target := Registry.IdsOf(e.connections, target) + {Registry.IdOf(api).value}]
    ensures r.threw ==>
              Registry.View(r.ext.connections) == Registry.View(e.connections)[target := Registry.IdsOf(e.connections, target)]
  {
    var o := Registry.Connect(e.connections, target, signal, api);
    r := Step(e.(connections := o.connections), CallEffects(o.calls), o.threw);
    CallsOfCallEffects(o.calls);
  }

  /** `_addIndicator()`: creates an indicator only when none exists. */
  function AddIndicator(e: Ext): (r: Step)
    ensures !r.threw && r.ext == e.(hasIndicator := true)
    ensures CreateIndicator in r.effects <==> !e.hasIndicator
  {
    var log := LogEffects(e.settings, Debug, "Adding indicator to QuickSettings menu");
    if !e.hasIndicator then Step(e.(hasIndicator := true), log + [CreateIndicator], false)
    else Step(e, log, false)
  }

  /** Adding twice creates one indicator. */
  lemma AddIndicatorIdempotent(e: Ext)
    ensures AddIndicator(AddIndicator(e).ext).ext == AddIndicator(e).ext
    ensures CreateIndicator !in AddIndicator(AddIndicator(e).ext).effects
  {
  }

  /** `_removeIndicator()` as written: the guard reads `this._indicator` but
      the body calls `this.indicator.destroy()`; `this.indicator` is never
      set, so with an indicator present a TypeError escapes and the
      indicator stays. */
  function RemoveIndicatorAsWritten(e: Ext): (r: Step)
    ensures r.ext == e
    ensures r.threw <==> e.hasIndicator
    ensures DestroyIndicator !in r.effects
  {
    var log := LogEffects(e.settings, Debug, "Removing indicator from QuickSettings menu");
    Step(e, log, e.hasIndicator)
  }

  /** `_removeIndicator()` with `this._indicator`: destroys the indicator if
      there is one; otherwise does nothing but log. */
  function RemoveIndicator(e: Ext): (r: Step)
    ensures !r.threw && r.ext == e.(hasIndicator := false)
    ensures DestroyIndicator in r.effects <==> e.hasIndicator
    ensures forall i :: 0 <= i < |r.effects| ==> !r.effects[i].Disconnect?
  {
    var log := LogEffects(e.settings, Debug, "Removing indicator from QuickSettings menu");
    if e.hasIndicator then Step(e.(hasIndicator := false), log + [DestroyIndicator], false)
    else Step(e, log, false)
  }

  /** As written, removing a present indicator fails and the indicator
      survives; the corrected removal leaves none. */
  lemma RemoveIndicatorFinding(e: Ext)
    requires e.hasIndicator
    ensures RemoveIndicatorAsWritten(e).threw && RemoveIndicatorAsWritten(e).ext.hasIndicator
    ensures !RemoveIndicator(e).threw && !RemoveIndicator(e).ext.hasIndicator
  {
  }

  /** `_toggleIndicator()`: only logs; the state is unchanged. */
  function ToggleIndicator(e: Ext): (r: Step)
    ensures r.ext == e && !r.threw
    ensures forall i :: 0 <= i < |r.effects| ==> r.effects[i].Log?
  {
    Step(e, LogEffects(e.settings, Debug, "Toggling visibility of indicator in QuickSettings menu"), false)
  }

  /** `_onSessionModeChanged(session)`: a current or parent mode of "user"
      adds the indicator; otherwise a current mode of "unlock-dialog"
      removes it; any other mode changes nothing. */
  function OnSessionModeChanged(e: Ext, currentMode: string, parentMode: string): (r: Step)
    ensures !r.threw
    ensures currentMode == "user" || parentMode == "user" ==> r.ext == e.(hasIndicator := true)
    ensures currentMode != "user" && parentMode != "user" && currentMode == "unlock-dialog" ==>
              r.ext == e.(hasIndicator := false)
    ensures currentMode != "user" && parentMode != "user" && currentMode != "unlock-dialog" ==> r.ext == e
    ensures CreateIndicator in r.effects <==> (currentMode == "user" || parentMode == "user") && !e.hasIndicator
    ensures DestroyIndicator in r.effects <==>
              currentMode != "user" && parentMode != "user" && currentMode == "unlock-dialog" && e.hasIndicator
  {
    var log := LogEffects(e.settings, Debug, "Session mode change detected, reacting...");
    if currentMode == "user" || parentMode == "user" then
      var a := AddIndicator(e);
      Step(a.ext, log + a.effects, false)
    else if currentMode == "unlock-dialog" then
      var d := RemoveIndicator(e);
      Step(d.ext, log + d.effects, false)
    else Step(e, log, false)
  }

  /** Locking the screen drops the indicator and unlocking brings it back:
      a fresh one is created, and nothing but the indicator changes. */
  lemma LockThenUnlock(e: Ext, lockedParent: string, userParent: string)
    requires lockedParent != "user"
    ensures var locked := OnSessionModeChanged(e, "unlock-dialog", lockedParent);
            && locked.ext == e.(hasIndicator := false)
            && (DestroyIndicator in locked.effects <==> e.hasIndicator)
    ensures var locked := OnSessionModeChanged(e, "unlock-dialog", lockedParent);
            var unlocked := OnSessionModeChanged(locked.ext, "user", userParent);
            && unlocked.ext == e.(hasIndicator := true)
            && CreateIndicator in unlocked.effects
  {
  }

  /** Back in the user session, a lock drops the indicator whatever the
      state before, and a second `user` update creates nothing. */
  lemma UnlockThenLock(e: Ext, userParent: string, lockedParent: string)
    requires lockedParent != "user"
    ensures var user := OnSessionModeChanged(e, "user", userParent);
            var again := OnSessionModeChanged(user.ext, "user", userParent);
            again.ext == user.ext && CreateIndicator !in again.effects
    ensures var user := OnSessionModeChanged(e, "user", userParent);
            var locked := OnSessionModeChanged(user.ext, "unlock-dialog", lockedParent);
            && locked.ext == e.(hasIndicator := false)
            && DestroyIndicator in locked.effects
  {
  }

  /** The calls `_connect` makes on a truthy source: `connect`, then
      `connectSignal` only when `connect` throws. */
  function ConnectCalls(target: Registry.Target, signal: string, api: Registry.ConnectApi): seq<Registry.Call>
  {
    [Registry.ConnectCall(target, signal)] + (if api.connect.None? then [Registry.ConnectSignalCall(target, signal)] else [])
  }

  /** `enable()`: subscribe to the session mode's `updated`, add the
      indicator when `show-in-quickmenu` is on, subscribe to
      `changed::show-in-quickmenu`. An exception from `_connect` ends it. */
  method Enable(e: Ext, sessionApi: Registry.ConnectApi, settingsApi: Registry.ConnectApi) returns (r: Step)
    requires Registry.Valid(e.connections)
    ensures Registry.Valid(r.ext.connections) && r.ext.settings == e.settings
    ensures r.threw <==> ((sessionApi.connect.None? && sessionApi.connectSignal.None?)
                          || (settingsApi.connect.None? && settingsApi.connectSignal.None?))
    ensures !r.threw ==> r.ext.hasIndicator == (e.hasIndicator || e.settings.showInQuickmenu)
    ensures !r.threw ==> Registry.View(r.ext.connections).Keys
                         == Registry.View(e.connections).Keys + {SessionMode, SettingsObject}
    ensures !r.threw ==> Calls(r.effects) == ConnectCalls(SessionMode, "updated", sessionApi)
                                             + ConnectCalls(SettingsObject, "changed::show-in-quickmenu", settingsApi)
    ensures !r.threw ==>
              Registry.View(r.ext.connections)
              == Registry.View(e.connections)
                   [SessionMode := Registry.IdsOf(e.connections, SessionMode) + {Registry.IdOf(sessionApi).value}]
                   [SettingsObject := Registry.IdsOf(e.connections, SettingsObject) + {Registry.IdOf(settingsApi).value}]
    ensures !r.threw && Registry.View(e.connections) == map[] ==>
              Registry.View(r.ext.connections)
              == map[SessionMode := {Registry.IdOf(sessionApi).value}, SettingsObject := {Registry.IdOf(settingsApi).value}]
    ensures r.threw && Registry.IdOf(sessionApi).None? ==>
              Registry.View(r.ext.connections)
              == Registry.View(e.connections)[SessionMode := Registry.IdsOf(e.connections, SessionMode)]
    ensures r.threw && Registry.IdOf(sessionApi).Some? ==>
              Registry.View(r.ext.connections)
              == Registry.View(e.connections)
                   [SessionMode := Registry.IdsOf(e.connections, SessionMode) + {Registry.IdOf(sessionApi).value}]
                   [SettingsObject := Registry.IdsOf(e.connections, SettingsObject)]
    ensures r.threw && Registry.IdOf(sessionApi).Some? ==>
              && r.ext.hasIndicator == (e.hasIndicator || e.settings.showInQuickmenu)
              && Calls(r.effects) == ConnectCalls(SessionMode, "updated", sessionApi)
                                     + ConnectCalls(SettingsObject, "changed::show-in-quickmenu", settingsApi)
    ensures r.threw && Registry.IdOf(sessionApi).None? ==>
              && r.ext.hasIndicator == e.hasIndicator
              && Calls(r.effects) == ConnectCalls(SessionMode, "updated", sessionApi)
  {
    var s1 := EnableSession(e, sessionApi);
    if s1.threw {
      return s1;
    }
    var s3 := Connect(s1.ext, SettingsObject, "changed::show-in-quickmenu", settingsApi);
    Registry.IdsOfUpdate(e.connections, s1.ext.connections, SessionMode,
                         Registry.IdsOf(e.connections, SessionMode) + {Registry.IdOf(sessionApi).value}, SettingsObject);
    if s3.threw {
      CallsAppend(s1.effects, s3.effects);
      return Step(s3.ext, s1.effects + s3.effects, true);
    }
    ghost var k0 := Registry.View(e.connections).Keys;
    ghost var k1 := Registry.View(s1.ext.connections).Keys;
    assert Registry.View(s3.ext.connections).Keys == k1 + {SettingsObject};
    assert k1 + {SettingsObject} == k0 + {SessionMode, SettingsObject};
    if Registry.View(e.connections) == map[] {
      FreshEnableView(e.connections, Registry.IdOf(sessionApi).value, Registry.IdOf(settingsApi).value);
    }
    var last := LogEffects(e.settings, Debug, "Extension enabled!");
    NoCalls(last);
    CallsAppend(s1.effects, s3.effects);
    CallsAppend(s1.effects + s3.effects, last);
    r := Step(s3.ext, s1.effects + s3.effects + last, false);
  }

  /** The first half of `enable()`: the opening debug line, the `updated`
      subscription and, when it did not throw, `_addIndicator()` if
      `show-in-quickmenu` is on. */
  method EnableSession(e: Ext, sessionApi: Registry.ConnectApi) returns (r: Step)
    requires Registry.Valid(e.connections)
    ensures Registry.Valid(r.ext.connections) && r.ext.settings == e.settings
    ensures r.threw <==> sessionApi.connect.None? && sessionApi.connectSignal.None?
    ensures !r.threw ==> r.ext.hasIndicator == (e.hasIndicator || e.settings.showInQuickmenu)
    ensures r.threw ==> r.ext.hasIndicator == e.hasIndicator
    ensures Registry.View(r.ext.connections).Keys == Registry.View(e.connections).Keys + {SessionMode}
    ensures Calls(r.effects) == ConnectCalls(SessionMode, "updated", sessionApi)
    ensures !r.threw ==>
              Registry.View(r.ext.connections)
              == Registry.View(e.connections)[SessionMode := Registry.IdsOf(e.connections, SessionMode) + {Registry.IdOf(sessionApi).value}]
    ensures r.threw ==>
              Registry.View(r.ext.connections) == Registry.View(e.connections)[SessionMode := Registry.IdsOf(e.connections, SessionMode)]
  {
    var first := LogEffects(e.settings, Debug, "Enabling extension...");
    NoCalls(first);
    var s1 := Connect(e, SessionMode, "updated", sessionApi);
    CallsAppend(first, s1.effects);
    if s1.threw {
      return Step(s1.ext, first + s1.effects, true);
    }
    var ext2, mid := ShowIndicator(s1.ext);
    NoCalls(mid);
    CallsAppend(first + s1.effects, mid);
    r := Step(ext2, first + s1.effects + mid, false);
  }

  /** The middle of `enable()`: `_addIndicator()` when `show-in-quickmenu`
      is on; it makes no connect calls. */
  method ShowIndicator(e: Ext) returns (r: Ext, effects: seq<Effect>)
    ensures r == (if e.settings.showInQuickmenu then e.(hasIndicator := true) else e)
    ensures e.settings.showInQuickmenu ==> effects == AddIndicator(e).effects
    ensures !e.settings.showInQuickmenu ==> effects == []
    ensures forall i :: 0 <= i < |effects| ==> !effects[i].Call?
  {
    if e.settings.showInQuickmenu {
      var s := AddIndicator(e);
      r, effects := s.ext, s.effects;
    } else {
      r, effects := e, [];
    }
  }

  /** On a registry with no subscriptions, the two updates `enable()` makes
      leave exactly the two sources, each with the one id it was given. */
  lemma FreshEnableView(c0: Registry.Connections, sessionId: Registry.HandlerId, settingsId: Registry.HandlerId)
    requires Registry.View(c0) == map[]
    ensures Registry.View(c0)
              [SessionMode := Registry.IdsOf(c0, SessionMode) + {sessionId}]
              [SettingsObject := Registry.IdsOf(c0, SettingsObject) + {settingsId}]
            == map[SessionMode := {sessionId}, SettingsObject := {settingsId}]
  {
    Registry.ViewAt(c0, SessionMode);
    Registry.ViewAt(c0, SettingsObject);
    assert Registry.IdsOf(c0, SessionMode) + {sessionId} == {sessionId};
    assert Registry.IdsOf(c0, SettingsObject) + {settingsId} == {settingsId};
  }

  /** The connect calls recorded among `effects`, in order. */
  function Calls(effects: seq<Effect>): seq<Registry.Call>
  {
    if effects == [] then []
    else (if effects[0].Call? then [effects[0].call] else []) + Calls(effects[1..])
  }

  lemma {:induction false} CallsAppend(a: seq<Effect>, b: seq<Effect>)
    ensures Calls(a + b) == Calls(a) + Calls(b)
  {
    if a != [] {
      assert (a + b)[0] == a[0] && (a + b)[1..] == a[1..] + b;
      CallsAppend(a[1..], b);
    } else {
      assert a + b == b;
    }
  }

  lemma {:induction false} CallsOfCallEffects(calls: seq<Registry.Call>)
    ensures Calls(CallEffects(calls)) == calls
  {
    if calls != [] {
      assert CallEffects(calls)[1..] == CallEffects(calls[1..]);
      CallsOfCallEffects(calls[1..]);
    }
  }

  lemma {:induction false} NoCalls(effects: seq<Effect>)
    requires forall i :: 0 <= i < |effects| ==> !effects[i].Call?
    ensures Calls(effects) == []
  {
    if effects != [] {
      NoCalls(effects[1..]);
    }
  }

  /** The teardown effects: each attempt, and an error line when both
      disconnect calls threw. */
  function AttemptEffects(s: Settings, attempts: seq<Registry.Attempt>): (r: seq<Effect>)
    ensures Disconnects(r) == attempts
    ensures forall i :: 0 <= i < |r| ==> !r[i].Call? && !r[i].DestroyIndicator?
  {
    if attempts == [] then []
    else
      var a := attempts[0];
      var err := if a.removal == Registry.Failed
                 then LogEffects(s, Error, "Unable to disconnect signal with disconnect(" + JsNumber.IntToString(a.id) + ")")
                 else [];
      DisconnectsAppend([Disconnect(a)], err);
      DisconnectsAppend([Disconnect(a)] + err, AttemptEffects(s, attempts[1..]));
      [Disconnect(a)] + err + AttemptEffects(s, attempts[1..])
  }

  /** The teardown attempts recorded among `effects`, in order. */
  function Disconnects(effects: seq<Effect>): seq<Registry.Attempt>
  {
    if effects == [] then []
    else (if effects[0].Disconnect? then [effects[0].attempt] else []) + Disconnects(effects[1..])
  }

  lemma {:induction false} DisconnectsAppend(a: seq<Effect>, b: seq<Effect>)
    ensures Disconnects(a + b) == Disconnects(a) + Disconnects(b)
  {
    if a != [] {
      assert (a + b)[0] == a[0] && (a + b)[1..] == a[1..] + b;
      DisconnectsAppend(a[1..], b);
    } else {
      assert a + b == b;
    }
  }

  lemma {:induction false} NoDisconnects(effects: seq<Effect>)
    requires forall i :: 0 <= i < |effects| ==> !effects[i].Disconnect?
    ensures Disconnects(effects) == []
  {
    if effects != [] {
      NoDisconnects(effects[1..]);
    }
  }

  /** `disable()` as written: `_disconnectAll` throws on the misspelt
      `this._conncetions`, so no subscription is removed and
      `_removeIndicator` is never reached: the indicator stays. */
  function DisableAsWritten(e: Ext): (r: Step)
    ensures r.threw && r.ext == e
    ensures Disconnects(r.effects) == [] && DestroyIndicator !in r.effects
  {
    var t := Registry.DisconnectAllAsWritten(e.connections);
    Step(e, LogEffects(e.settings, Debug, "Disabling extension..."), t.threw)
  }

  /** `disable()` with `this._connections`: every recorded subscription is
      tried once, then the indicator is removed. The Map itself is not
      cleared by the source. */
  method Disable(e: Ext, disconnect: (Registry.Target, Registry.HandlerId) -> bool,
                 disconnectSignal: (Registry.Target, Registry.HandlerId) -> bool) returns (r: Step)
    ensures !r.threw
    ensures r.ext == e.(hasIndicator := false)
    ensures Disconnects(r.effects) == Registry.IntendedTeardown(e.connections, disconnect, disconnectSignal).attempts
    ensures DestroyIndicator in r.effects <==> e.hasIndicator
    ensures forall i, j :: 0 <= i < j < |r.effects| && r.effects[i].DestroyIndicator? ==> !r.effects[j].Disconnect?
  {
    var first := LogEffects(e.settings, Debug, "Disabling extension...");
    var teardown := TeardownEffects(e, disconnect, disconnectSignal);
    var removed := RemoveIndicator(e);
    var last := LogEffects(e.settings, Debug, "Extension disabled!");
    DisableSequence(first, teardown, removed.effects, last);
    r := Step(removed.ext, first + teardown + removed.effects + last, false);
  }

  /** Around the teardown, `disable()` only logs and removes the indicator:
      the attempts are the teardown's, an indicator is destroyed only by the
      removal step, and no attempt follows that removal. */
  lemma DisableSequence(first: seq<Effect>, teardown: seq<Effect>, removed: seq<Effect>, last: seq<Effect>)
    requires forall i :: 0 <= i < |first| ==> first[i].Log?
    requires forall i :: 0 <= i < |last| ==> last[i].Log?
    requires forall i :: 0 <= i < |removed| ==> !removed[i].Disconnect?
    requires forall i :: 0 <= i < |teardown| ==> !teardown[i].DestroyIndicator?
    ensures Disconnects(first + teardown + removed + last) == Disconnects(teardown)
    ensures DestroyIndicator in first + teardown + removed + last <==> DestroyIndicator in removed
    ensures var all := first + teardown + removed + last;
            forall i, j :: 0 <= i < j < |all| && all[i].DestroyIndicator? ==> !all[j].Disconnect?
  {
    var all := first + teardown + removed + last;
    forall i, j | 0 <= i < j < |all| && all[i].DestroyIndicator?
      ensures !all[j].Disconnect?
    {
      assert i >= |first + teardown|;
      if j < |first + teardown + removed| {
        assert all[j] == removed[j - |first + teardown|];
      } else {
        assert all[j] == last[j - |first + teardown + removed|];
      }
    }
    NoDisconnects(first);
    NoDisconnects(removed);
    NoDisconnects(last);
    DisconnectsAppend(first, teardown);
    DisconnectsAppend(first + teardown, removed);
    DisconnectsAppend(first + teardown + removed, last);
  }

  /** The effects of `_disconnectAll()` with `this._connections`: one
      attempt per recorded handle, in order, with an error line for each
      that could not be removed. */
  method TeardownEffects(e: Ext, disconnect: (Registry.Target, Registry.HandlerId) -> bool,
                         disconnectSignal: (Registry.Target, Registry.HandlerId) -> bool) returns (effects: seq<Effect>)
    ensures Disconnects(effects) == Registry.IntendedTeardown(e.connections, disconnect, disconnectSignal).attempts
    ensures forall i :: 0 <= i < |effects| ==> !effects[i].Call? && !effects[i].DestroyIndicator?
  {
    var t := Registry.DisconnectAll(e.connections, disconnect, disconnectSignal);
    effects := AttemptEffects(e.settings, t.attempts);
  }

  /** As written, `disable()` on an enabled extension with an indicator
      leaves both the indicator and its subscriptions in place. */
  lemma DisableFinding(e: Ext, disconnect: (Registry.Target, Registry.HandlerId) -> bool,
                       disconnectSignal: (Registry.Target, Registry.HandlerId) -> bool)
    requires e.hasIndicator && |Registry.Handles(e.connections)| > 0
    ensures DisableAsWritten(e).ext.hasIndicator
    ensures Disconnects(DisableAsWritten(e).effects)
         != Registry.IntendedTeardown(e.connections, disconnect, disconnectSignal).attempts
  {
  }
}
