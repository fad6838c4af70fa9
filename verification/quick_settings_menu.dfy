/** The Caffeinate quick-settings toggle (`CaffeinateToggleMenu`): its menu
    header choice, the GameMode toggle guard, the GameMode state-change
    callback with its notification, its teardown, and its logger. */
module QuickSettingsMenu {
  import opened Base
  import LogFormat
  import JsNumber
  import Registry
  import GameModeClient

  /** The prefix of every line this class logs. */
  const Prefix := "Caffeinate Extension - QuickSettingsMenu: "

  /** The settings keys this class reads. */
  datatype Settings = Settings(debugLogging: bool, gameModeNotifications: bool)

  datatype Notice = Notice(title: string, body: string)

  /** The arguments of one `menu.setHeader(icon, title, subtitle)` call. */
  datatype MenuHeader = MenuHeader(icon: string, title: string, subtitle: string)

  /** The fields of the toggle the modelled methods touch. */
  datatype Menu = Menu(
    settings: Settings,
    connections: Registry.Connections,
    hasNotifySource: bool,
    notification: Option<Notice>,
    header: Option<MenuHeader>,
    client: GameModeClient.Watcher)

  datatype Effect =
    | Log(kind: LogKind, content: string)  // `_logMessage` wrote `LogMessage(true, kind, content)`
    | SetHeader(header: MenuHeader)
    | DestroyNotification
    | AddNotifySource
    | NewNotification(notice: Notice)
    | ShowNotification(notice: Notice)
    | Disconnect(attempt: Registry.Attempt)
    | Client(effect: GameModeClient.Effect)
    | RegisterGame(pid: Int32)
    | UnregisterGame(pid: Int32)

  datatype Step = Step(menu: Menu, effects: seq<Effect>, threw: bool)

  // ---------------------------------------------------------------------
  // _logMessage

  /** `_logMessage(kind, content)`: the journal line, or None when a debug
      message meets debug logging switched off. */
  function LogMessage(debugLogging: bool, kind: LogKind, content: string): (r: Option<string>)
    ensures r.Some? <==> (kind == Error || debugLogging)
    ensures r.Some? ==> LogFormat.SplitLines(r.value)
                        == LogFormat.Prefixed(Prefix + KindName(kind) + ": ", LogFormat.SplitLines(content))
  {
    LogFormat.LogMessage(Prefix, debugLogging, kind, content)
  }

  /** A `_logMessage` call as an effect: present exactly when the gate lets it through. */
  function LogEffects(s: Settings, kind: LogKind, content: string): (r: seq<Effect>)
    ensures |r| == (if kind == Error || s.debugLogging then 1 else 0)
    ensures forall i :: 0 <= i < |r| ==> r[i].Log?
  {
    if LogFormat.Writes(kind, s.debugLogging) then [Log(kind, content)] else []
  }

  // ---------------------------------------------------------------------
  // _sync

  datatype HeaderKind = GameModeHeader | EnabledHeader | DisabledHeader

  /** Header priority: GameMode first, then caffeination, else disabled. */
  function ChooseHeader(gameModeActive: bool, caffeinated: bool): (k: HeaderKind)
    ensures k == GameModeHeader <==> gameModeActive
    ensures k == EnabledHeader <==> !gameModeActive && caffeinated
    ensures k == DisabledHeader <==> !gameModeActive && !caffeinated
  {
    if gameModeActive then GameModeHeader
    else if caffeinated then EnabledHeader
    else DisabledHeader
  }

  function IconPath(mePath: string, file: string): string
  {
    mePath + "/icons/" + file
  }

  /** The icon the toggle itself is created with. */
  function ToggleIcon(mePath: string): string
  {
    IconPath(mePath, "caffeinate-off-symbolic.svg")
  }

  /** The header for each kind, with the disabled icon file name the
      template literal evidently means. */
  function HeaderFor(k: HeaderKind, mePath: string): (h: MenuHeader)
    ensures h.icon == ToggleIcon(mePath) <==> k == DisabledHeader
    ensures h.title == "Caffeinate [GameMode]" <==> k == GameModeHeader
    ensures h.title == "Caffeinate [Enabled]" <==> k == EnabledHeader
    ensures h.title == "Caffeinate [Disabled]" <==> k == DisabledHeader
  {
    match k
    case GameModeHeader =>
      MenuHeader(IconPath(mePath, "gamemode-on-symbolic.svg"), "Caffeinate [GameMode]", "GameMode is currently active")
    case EnabledHeader =>
      MenuHeader(IconPath(mePath, "caffeinate-on-symbolic.svg"), "Caffeinate [Enabled]", "Caffeination is currently active")
    case DisabledHeader =>
      MenuHeader(IconPath(mePath, "caffeinate-off-symbolic.svg"), "Caffeinate [Disabled]", "Enable/Disable auto-suspend and screensaver")
  }

  /** The header as written: the disabled icon's template literal carries a
      stray `$` before the file name (no `{` follows it, so it is literal). */
  function HeaderForAsWritten(k: HeaderKind, mePath: string): (h: MenuHeader)
    ensures k != DisabledHeader ==> h == HeaderFor(k, mePath)
    ensures k == DisabledHeader ==> h == HeaderFor(k, mePath).(icon := IconPath(mePath, "$caffeinate-off-symbolic.svg"))
  {
    match k
    case DisabledHeader =>
      MenuHeader(IconPath(mePath, "$caffeinate-off-symbolic.svg"), "Caffeinate [Disabled]", "Enable/Disable auto-suspend and screensaver")
    case _ => HeaderFor(k, mePath)
  }

  /** The disabled header as written names an icon file that differs from
      the toggle's own off icon; the corrected one names the same file. */
  lemma DisabledIconFinding(mePath: string)
    ensures HeaderForAsWritten(DisabledHeader, mePath).icon != ToggleIcon(mePath)
    ensures HeaderFor(DisabledHeader, mePath).icon == ToggleIcon(mePath)
  {
    var bad := HeaderForAsWritten(DisabledHeader, mePath).icon;
    var good := ToggleIcon(mePath);
    assert bad[|mePath| + 7] == '$';
    assert good[|mePath| + 7] == 'c';
  }

  /** `_sync()`. Caffeination is hard-coded off; GameMode counts as active
      when the client's `clientCount` getter is above zero. Exactly one
      header is set. */
  function Sync(m: Menu, mePath: string, remoteCount: GameModeClient.Count): (r: Step)
    ensures !r.threw && |r.effects| == 1 && r.effects[0].SetHeader?
    ensures r.menu == m.(header := Some(r.effects[0].header))
    ensures var n := GameModeClient.ClientCount(m.client, remoteCount);
            && (r.effects[0].header.title == "Caffeinate [GameMode]" <==> GameModeClient.Active(n))
            && (r.effects[0].header.title == "Caffeinate [Disabled]" <==> !GameModeClient.Active(n))
    ensures m.client.proxy.None? ==> r.effects[0].header.title == "Caffeinate [Disabled]"
  {
    var caffeinationState := false;
    var gameModeState := GameModeClient.Active(GameModeClient.ClientCount(m.client, remoteCount));
    var h := HeaderFor(ChooseHeader(gameModeState, caffeinationState), mePath);
    Step(m.(header := Some(h)), [SetHeader(h)], false)
  }

  /** The header `_sync()` sets depends on the GameMode client alone. */
  lemma SyncReadsOnlyClient(m1: Menu, m2: Menu, mePath: string, remoteCount: GameModeClient.Count)
    requires m1.client == m2.client
    ensures Sync(m1, mePath, remoteCount).effects == Sync(m2, mePath, remoteCount).effects
  {
  }

  /** The Enabled header is unreachable while caffeination is hard-coded off. */
  lemma SyncNeverShowsEnabled(m: Menu, mePath: string, remoteCount: GameModeClient.Count)
    ensures Sync(m, mePath, remoteCount).effects[0].header.title != "Caffeinate [Enabled]"
  {
  }

  // ---------------------------------------------------------------------
  // _toggleGameMode

  /** `_toggleGameMode(state)`: nothing is registered or unregistered (the
      registration is left as a comment in the source); only debug lines
      are logged. "enable" with a `clientCount` of exactly 0 logs nothing
      beyond the request line. */
  function ToggleGameMode(m: Menu, state: string, remoteCount: GameModeClient.Count): (r: Step)
    ensures r.menu == m && !r.threw
    ensures forall i :: 0 <= i < |r.effects| ==> r.effects[i].Log?
    ensures !m.settings.debugLogging ==> r.effects == []
    ensures m.settings.debugLogging ==>
              |r.effects| == (if (state == "enable" && GameModeClient.ClientCount(m.client, remoteCount) == Some(0))
                                 || (state != "enable" && state != "disable") then 1 else 2)
  {
    var request := LogEffects(m.settings, Debug, "GameMode toggle requested. Rstate = " + state);
    var n := GameModeClient.ClientCount(m.client, remoteCount);
    var rest :=
      if state == "enable" then
        if n == Some(0) then []  // registration not written yet
        else LogEffects(m.settings, Debug, "GameMode enable toggle ignored, already active")
      else if state == "disable" then
        LogEffects(m.settings, Debug, "GameMode disable toggle ignored, we are not currently holding it")
      else [];
    Step(m, request + rest, false)
  }

  /** The toggle never talks to the GameMode daemon. */
  lemma ToggleGameModeNeverRegisters(m: Menu, state: string, remoteCount: GameModeClient.Count)
    ensures forall e :: e in ToggleGameMode(m, state, remoteCount).effects ==> !e.RegisterGame? && !e.UnregisterGame?
  {
  }

  // ---------------------------------------------------------------------
  // _notify and _onGameModeStateChanged

  /** The part of `_notify(title, body)` before the show call: an old
      notification is destroyed, the source is created on first use, and a
      new high-urgency notification is made. */
  function PrepareNotify(m: Menu, n: Notice): (r: Step)
    ensures !r.threw && r.menu == m.(hasNotifySource := true, notification := Some(n))
    ensures |r.effects| >= 1 && r.effects[|r.effects| - 1] == NewNotification(n)
    ensures DestroyNotification in r.effects <==> m.notification.Some?
    ensures AddNotifySource in r.effects <==> !m.hasNotifySource
    ensures forall i :: 0 <= i < |r.effects| ==> !r.effects[i].ShowNotification? && !r.effects[i].SetHeader?
  {
    var destroyOld := if m.notification.Some? then [DestroyNotification] else [];
    var addSource := if !m.hasNotifySource then [AddNotifySource] else [];
    Step(m.(hasNotifySource := true, notification := Some(n)), destroyOld + addSource + [NewNotification(n)], false)
  }

  /** `_notify` as written: the last line calls `showNotification` on
      `this.notifySource`, a field that is never set, so it throws a
      TypeError and the notification is never shown. */
  function NotifyAsWritten(m: Menu, n: Notice): (r: Step)
    ensures r.threw && ShowNotification(n) !in r.effects
    ensures r.menu.notification == Some(n) && r.menu.hasNotifySource
  {
    var p := PrepareNotify(m, n);
    Step(p.menu, p.effects, true)
  }

  /** `_notify` with `this._notifySource`: the new notification is shown. */
  function Notify(m: Menu, n: Notice): (r: Step)
    ensures !r.threw && |r.effects| >= 1 && r.effects[|r.effects| - 1] == ShowNotification(n)
    ensures r.menu == m.(hasNotifySource := true, notification := Some(n))
    ensures forall i :: 0 <= i < |r.effects| ==> !r.effects[i].SetHeader?
    ensures forall i :: 0 <= i < |r.effects| && r.effects[i].ShowNotification? ==> r.effects[i] == ShowNotification(n)
  {
    var p := PrepareNotify(m, n);
    Step(p.menu, p.effects + [ShowNotification(n)], false)
  }

  function GameModeNotice(active: bool): Notice
  {
    if active then Notice("GameMode is active", "Computer performance is now optimized for playing games")
    else Notice("GameMode is off", "Computer performance is reset for normal usage")
  }

  /** `_onGameModeStateChanged(cli, state)` with the corrected `_notify`:
      notify only when `gamemode-enable-notifications` is on, with the title
      chosen by `state`, then always re-sync the header. */
  function OnGameModeStateChanged(m: Menu, active: bool, mePath: string, remoteCount: GameModeClient.Count): (r: Step)
    ensures !r.threw && |r.effects| >= 1
    ensures r.effects[|r.effects| - 1].SetHeader?
    ensures r.menu.header == Some(r.effects[|r.effects| - 1].header)
    ensures ShowNotification(GameModeNotice(active)) in r.effects <==> m.settings.gameModeNotifications
    ensures forall n :: ShowNotification(n) in r.effects ==> n == GameModeNotice(active)
    ensures r.effects[|r.effects| - 1] == Sync(m, mePath, remoteCount).effects[0]
  {
    if m.settings.gameModeNotifications then
      var n := Notify(m, GameModeNotice(active));
      var s := Sync(n.menu, mePath, remoteCount);
      SyncReadsOnlyClient(n.menu, m, mePath, remoteCount);
      NoticeThenHeader(n.effects, s.effects, GameModeNotice(active));
      Step(s.menu, n.effects + s.effects, false)
    else
      Sync(m, mePath, remoteCount)
  }

  /** A notification shown and then one header set: the notice is the only
      one shown, and the header comes last. */
  lemma NoticeThenHeader(shown: seq<Effect>, synced: seq<Effect>, n: Notice)
    requires |shown| >= 1 && shown[|shown| - 1] == ShowNotification(n)
    requires forall i :: 0 <= i < |shown| && shown[i].ShowNotification? ==> shown[i] == ShowNotification(n)
    requires |synced| == 1 && synced[0].SetHeader?
    ensures ShowNotification(n) in shown + synced
    ensures forall x :: ShowNotification(x) in shown + synced ==> x == n
    ensures (shown + synced)[|shown + synced| - 1] == synced[0]
  {
    assert (shown + synced)[|shown| - 1] == ShowNotification(n);
    forall x | ShowNotification(x) in shown + synced
      ensures x == n
    {
      var i :| 0 <= i < |shown + synced| && (shown + synced)[i] == ShowNotification(x);
      assert i < |shown|;
      assert shown[i] == ShowNotification(x);
    }
  }

  /** `_onGameModeStateChanged` as written: with notifications on, the
      TypeError from `_notify` escapes before `_sync()` runs. */
  function OnGameModeStateChangedAsWritten(m: Menu, active: bool, mePath: string, remoteCount: GameModeClient.Count): (r: Step)
    ensures !m.settings.gameModeNotifications ==> r == Sync(m, mePath, remoteCount)
  {
    if m.settings.gameModeNotifications then NotifyAsWritten(m, GameModeNotice(active))
    else Sync(m, mePath, remoteCount)
  }

  /** With notifications on, the callback as written neither shows the
      notification nor updates the header; the corrected one does both. */
  lemma NotifySourceFinding(m: Menu, active: bool, mePath: string, remoteCount: GameModeClient.Count)
    requires m.settings.gameModeNotifications
    ensures var r := OnGameModeStateChangedAsWritten(m, active, mePath, remoteCount);
            r.threw && r.menu.header == m.header
            && (forall e :: e in r.effects ==> !e.SetHeader? && !e.ShowNotification?)
    ensures var r := OnGameModeStateChanged(m, active, mePath, remoteCount);
            !r.threw && ShowNotification(GameModeNotice(active)) in r.effects && r.effects[|r.effects| - 1].SetHeader?
  {
  }

  // ---------------------------------------------------------------------
  // _onDestroy

  /** The effects of one teardown attempt: the attempt, and an error line
      when both disconnect calls threw. */
  function AttemptEffects(s: Settings, attempts: seq<Registry.Attempt>): (r: seq<Effect>)
    ensures Disconnects(r) == attempts
    ensures forall i :: 0 <= i < |r| ==> !r[i].Client?
  {
    if attempts == [] then []
    else
      var a := attempts[0];
      var err := if a.removal == Registry.Failed
                 then LogEffects(s, Error, "Unable to disconnect signal with disconnect(" + JsNumber.IntToString(a.id) + ")")
                 else [];
      DisconnectsAppend([Disconnect(a)], err);
      DisconnectsAppend([Disconnect(a)] + err, AttemptEffects(s, attempts[1..]));
      [Disconnect(a)] + err + AttemptEffects(s, attempts[1..])
  }

  /** The teardown attempts recorded among `effects`, in order. */
  function Disconnects(effects: seq<Effect>): seq<Registry.Attempt>
  {
    if effects == [] then []
    else (if effects[0].Disconnect? then [effects[0].attempt] else []) + Disconnects(effects[1..])
  }

  lemma {:induction false} DisconnectsAppend(a: seq<Effect>, b: seq<Effect>)
    ensures Disconnects(a + b) == Disconnects(a) + Disconnects(b)
  {
    if a != [] {
      assert (a + b)[0] == a[0] && (a + b)[1..] == a[1..] + b;
      DisconnectsAppend(a[1..], b);
    } else {
      assert a + b == b;
    }
  }

  /** `_onDestroy()` as written: after the first debug line, `_disconnectAll`
      throws (it reads `this._conncetions`), so nothing is disconnected and
      the GameMode client is not closed; had it returned, `this._client`
      (never set) would have thrown as well. */
  function OnDestroyAsWritten(m: Menu): (r: Step)
    ensures r.threw && r.menu == m
    ensures Disconnects(r.effects) == []
    ensures forall e :: e in r.effects ==> !e.Client?
  {
    var t := Registry.DisconnectAllAsWritten(m.connections);
    Step(m, LogEffects(m.settings, Debug, "Destroying class..."), t.threw)
  }

  /** The GameMode client's effects, as seen from the menu. */
  function ClientEffects(es: seq<GameModeClient.Effect>): (r: seq<Effect>)
    ensures |r| == |es| && forall i :: 0 <= i < |r| ==> r[i] == Client(es[i])
    ensures Disconnects(r) == []
  {
    if es == [] then []
    else
      var r := [Client(es[0])] + ClientEffects(es[1..]);
      assert r[1..] == ClientEffects(es[1..]);
      r
  }

  lemma NoLogDisconnects(effects: seq<Effect>)
    requires |effects| <= 1 && forall i :: 0 <= i < |effects| ==> effects[i].Log?
    ensures Disconnects(effects) == []
  {
    if effects != [] {
      assert effects[1..] == [];
    }
  }

  /** `_onDestroy()` with `this._connections` and `this._gameModeClient`:
      every recorded subscription is tried once, then the GameMode client is
      closed. */
  method OnDestroy(m: Menu, disconnect: (Registry.Target, Registry.HandlerId) -> bool,
                   disconnectSignal: (Registry.Target, Registry.HandlerId) -> bool) returns (r: Step)
    ensures !r.threw
    ensures Disconnects(r.effects) == Registry.IntendedTeardown(m.connections, disconnect, disconnectSignal).attempts
    ensures r.menu == m.(client := GameModeClient.Close(m.client).watcher)
    ensures r.menu.client.proxy.None?
    ensures Client(GameModeClient.DisconnectListeners) in r.effects
    ensures forall i, j :: 0 <= i < j < |r.effects| && r.effects[i].Client? ==> !r.effects[j].Disconnect?
  {
    var first := LogEffects(m.settings, Debug, "Destroying class...");
    var t := Registry.DisconnectAll(m.connections, disconnect, disconnectSignal);
    var teardown := AttemptEffects(m.settings, t.attempts);
    var closed := GameModeClient.Close(m.client);
    var closeEffects := ClientEffects(closed.effects);
    var last := LogEffects(m.settings, Debug, "Class destroyed!");
    DestroySequence(first, teardown, closeEffects, last);
    var effects := first + teardown + closeEffects + last;
    assert effects[|first + teardown|] == Client(GameModeClient.DisconnectListeners);
    r := Step(m.(client := closed.watcher), effects, false);
  }

  /** Around the teardown, `_onDestroy()` only logs and closes the client:
      the attempts are the teardown's, and none follows the close. */
  lemma DestroySequence(first: seq<Effect>, teardown: seq<Effect>, closing: seq<Effect>, last: seq<Effect>)
    requires |first| <= 1 && forall i :: 0 <= i < |first| ==> first[i].Log?
    requires |last| <= 1 && forall i :: 0 <= i < |last| ==> last[i].Log?
    requires forall i :: 0 <= i < |teardown| ==> !teardown[i].Client?
    requires Disconnects(closing) == [] && forall i :: 0 <= i < |closing| ==> closing[i].Client?
    ensures Disconnects(first + teardown + closing + last) == Disconnects(teardown)
    ensures var all := first + teardown + closing + last;
            forall i, j :: 0 <= i < j < |all| && all[i].Client? ==> !all[j].Disconnect?
  {
    NoLogDisconnects(first);
    NoLogDisconnects(last);
    DisconnectsAppend(first, teardown);
    DisconnectsAppend(first + teardown, closing);
    DisconnectsAppend(first + teardown + closing, last);
    var all := first + teardown + closing + last;
    forall i, j | 0 <= i < j < |all| && all[i].Client?
      ensures !all[j].Disconnect?
    {
      assert i >= |first + teardown|;
      if j < |first + teardown + closing| {
        assert all[j] == closing[j - |first + teardown|];
      } else {
        assert all[j] == last[j - |first + teardown + closing|];
      }
    }
  }

  /** The misspelt teardown leaves subscriptions connected that the
      corrected one removes. */
  lemma TeardownFinding(m: Menu, disconnect: (Registry.Target, Registry.HandlerId) -> bool,
                        disconnectSignal: (Registry.Target, Registry.HandlerId) -> bool)
    requires |Registry.Handles(m.connections)| > 0
    ensures Disconnects(OnDestroyAsWritten(m).effects)
         != Registry.IntendedTeardown(m.connections, disconnect, disconnectSignal).attempts
  {
  }
}
