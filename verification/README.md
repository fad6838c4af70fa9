# Caffeinate GNOME Shell extension — a Dafny model of its decision logic

Caffeinate is a GNOME Shell extension. It puts a toggle into the quick-settings
menu and watches the GameMode daemon (`com.feralinteractive.GameMode` on D-Bus).
Most of its code is glue to the shell. The sequential decision logic is modelled
here as pure step functions. Each returns the new state together with the
ordered effects it caused: signals emitted, calls made, lines logged.

The modules follow the program's structure:

- `Base` (`base.dfy`): `Option` (JavaScript `null`), `Int32` (the D-Bus `i` type) and the two log kinds.
- `LogFormat` (`log_format.dfy`): `_logMessage`, shared by the extension and its menu. A debug message is written only when debug logging is on. Every line of a written message starts with `<prefix><type>: `.
- `JsNumber` (`js_number.dfy`): `Number.parseInt`, and the preferences' `shellVersion` taken from `PACKAGE_VERSION.split('.')[0]`.
- `Registry` (`registry.dfy`): the subscription bookkeeping (`_connect` / `_disconnectAll`). The extension and the menu each carry a copy of it.
  - The JavaScript `Map` of `Set`s is kept as an insertion-ordered sequence of entries.
  - `View` abstracts it to a `map<Target, set<HandlerId>>`. `LookupView` is the reference definition: each key mapped to what `Map.get` returns for it.
  - Teardown is a loop method, and `IntendedTeardown` is its reference.
- `GameModeClient` (`gamemode_client.dfy`): the `ClientCount` watcher.
  - Proxy-ready step, properties-changed step, `close` and the `clientCount` getter.
  - The result mapping of `registerGame` / `unregisterGame`.
  - Lemmas about whole runs of notifications.
- `QuickSettingsMenu` (`quick_settings_menu.dfy`): the toggle's header choice (`_sync`), the GameMode toggle guard, the GameMode state callback with its notification, and the teardown.
- `Extension` (`extension.dfy`): the constructor, `enable`, `disable`, adding and removing the indicator, and the session-mode reaction.
- `Prefs` (`prefs.js` → `prefs.dfy`):
  - the page chosen by `prefs-visible-page`;
  - the change handler that resets the setting;
  - the page list built by `populateWindow`;
  - the icon search-path guard, the constructor and `destroy`.

Modelling conventions:

- An exception that escapes a JavaScript function is `threw: true` in the step result.
- Whatever the model cannot see is a parameter:
  - what the proxy reads for `ClientCount`;
  - whether `connect`, `connectSignal`, `disconnect` and `disconnectSignal` throw, and which id they return;
  - the reply of a remote call;
  - the extension's path.
- Wherever the source has a bug, the model has two versions: one as written and one corrected, and a lemma shows how they differ (see Findings). The rest of the model uses the corrected versions.

## Model

| member | source | states |
|---|---|---|
| LogFormat.LogMessage | src/modules/QuickSettingsMenu.js:316-320 | A line is written exactly when the type is not Debug or debug logging is on. Splitting the written text at newlines gives the content's lines, each with `<prefix><type>: ` in front. |
| LogFormat.FormatSplitsIntoHeaderedLines | src/extension.js:148-149 | Replacing every newline by newline plus header, then putting the header in front, yields text whose every line is the header followed by the matching line of the content. |
| QuickSettingsMenu.LogMessage | src/modules/QuickSettingsMenu.js:316-320 | The menu's logger writes only non-debug messages or debug messages with debug logging on. Every line starts with `Caffeinate Extension - QuickSettingsMenu: <type>: `. |
| Extension.LogMessage | src/extension.js:146-151 | The extension's logger has the same gate, and every line starts with `Caffeinate Extension: <type>: `. |
| QuickSettingsMenu.LogEffects | src/modules/QuickSettingsMenu.js:317 | A `_logMessage` call leaves exactly one log effect when the gate is open and none otherwise. |
| JsNumber.BeforeFirstDot | src/prefs.js:28 | `split('.')[0]` is the longest prefix with no `.`. It is followed by a `.` or by the end of the text. |
| JsNumber.ParseIntOfNatToString | src/prefs.js:29 | Parsing the decimal text of a natural number with `Number.parseInt` gives the number back. |
| JsNumber.ShellVersionOfRelease | src/prefs.js:27-29 | For any version text `<major>.<rest>`, `shellVersion` is `<major>`. |
| Registry.Empty | src/extension.js:50 | `new Map()` is a valid registry with an empty view. |
| Registry.Connect | src/modules/QuickSettingsMenu.js:96-116 | Effect of `_connect` on a falsy target: none, and no call is made. Effect on a truthy target: <ul><li>the calls are exactly `connect`, then `connectSignal` only when `connect` threw;</li><li>the exception escapes exactly when both threw;</li><li>the target's entry exists afterwards, even after a throw;</li><li>exactly the id obtained, from `connect` or else from `connectSignal`, is added to its set;</li><li>no other source's set changes.</li></ul> |
| Registry.ViewIsLookup | src/modules/QuickSettingsMenu.js:99-102 | The entry-by-entry view of the registry equals the map of what `Map.get` returns for each key, for every registry. |
| Registry.ViewAt | src/modules/QuickSettingsMenu.js:99-102 | A source is in the view exactly when a lookup finds its entry. Its set is then the ids recorded in that entry. |
| Registry.TryAll | src/modules/QuickSettingsMenu.js:125-133 | Per id: "removed by `disconnect`" exactly when `disconnect` succeeds, and "failed" exactly when both calls throw. |
| Registry.DisconnectEntry | src/modules/QuickSettingsMenu.js:124-134 | The inner loop tries every id of one entry once, in Set order. |
| Registry.DisconnectAll | src/modules/QuickSettingsMenu.js:121-137 | The corrected teardown tries every handle of every truthy source once, in Map and Set order. A failure is recorded and the loop goes on. Nothing escapes, and the result equals `IntendedTeardown`. |
| Registry.TeardownVisitsEachHandleOnce | src/extension.js:121-137 | The handles a teardown visits are exactly the pairs (source, id) in the registry's view, and none is visited twice. |
| Registry.DisconnectAllAsWritten | src/extension.js:122 | Iterating `this._conncetions` throws before any id is tried. |
| Registry.AsWrittenTeardownSkipsHandles | src/modules/QuickSettingsMenu.js:122 | On a registry with a handle, the as-written teardown removes none of the handles the intended one removes. |
| GameModeClient.New | src/modules/GameModeClient.js:51-66 | The constructor starts with no proxy and a `client_count` of 0. |
| GameModeClient.ProxyReady | src/modules/GameModeClient.js:68-86 | If proxy creation fails: the error is logged and nothing else changes. If it succeeds, in order: <ol><li>the properties handler is connected;</li><li>the ready callback runs, exactly when one was given;</li><li>the count is cached;</li><li>`state-changed(true)` then `count-changed(n)` are emitted, only if `n > 0`.</li></ol> |
| GameModeClient.PropertiesChanged | src/modules/GameModeClient.js:88-104 | A payload without `ClientCount` changes nothing. Otherwise the cached count becomes the proxy's current value, and only signals are emitted. With no proxy, reading the property throws. |
| GameModeClient.PropertiesChangedEdges | src/modules/GameModeClient.js:93-103 | `state-changed(a)` is emitted exactly when activity flips, with `a` the new activity. `count-changed(n)` is emitted exactly when the count differs, with `n` the new count. An unchanged count emits nothing. State comes before count, and at most two signals are emitted. |
| GameModeClient.RunSignals | src/modules/GameModeClient.js:88-104 | Over any sequence of notifications: <ul><li>consecutive `state-changed` values alternate;</li><li>every `count-changed` carries a new value;</li><li>the last values emitted are the watcher's final activity and count.</li></ul> |
| GameModeClient.ReadyThenRun | src/modules/GameModeClient.js:50-104 | From construction, through the proxy coming up, to any sequence of notifications: <ul><li>the `state-changed` values alternate starting from inactive and end at the final activity;</li><li>when the proxy came up holding a non-negative count, every `count-changed` carries a new value from the constructor's 0 on, and the last one is the final count.</li></ul> |
| GameModeClient.ClientCount | src/modules/GameModeClient.js:117-119 | The getter is 0 without a proxy and the proxy's value with one. |
| GameModeClient.Close | src/modules/GameModeClient.js:107-115 | `close` drops the listeners. Only when a proxy exists, it disconnects that proxy's handler and drops the proxy. `client_count` is kept. |
| GameModeClient.CloseTwice | src/modules/GameModeClient.js:110-111 | A second `close` touches no proxy and changes nothing. |
| GameModeClient.RegisterGame | src/modules/GameModeClient.js:121-131 | Without a proxy the call throws and the callback never runs. Otherwise `RegisterGame` is called with the pid, and the callback runs once: with (-2, err) on a transport error, and (status, null) otherwise. |
| GameModeClient.UnregisterGame | src/modules/GameModeClient.js:133-143 | The same mapping, for `UnregisterGame`. |
| GameModeClient.RegisterUnregisterAgree | src/modules/GameModeClient.js:121-143 | The two calls differ only in the remote method they name. The callback's error is set exactly on a transport error. A -2 status without an error can only be the daemon's own reply. |
| QuickSettingsMenu.ChooseHeader | src/modules/QuickSettingsMenu.js:215-233 | The GameMode header appears exactly when GameMode is active. The Enabled header appears exactly when GameMode is inactive and caffeination is on. Otherwise the Disabled header appears. |
| QuickSettingsMenu.Sync | src/modules/QuickSettingsMenu.js:204-233 | `_sync` sets exactly one header. It is the GameMode header exactly when the client's `clientCount` is above 0, and the Disabled header otherwise. Without a proxy it is always the Disabled header. |
| QuickSettingsMenu.SyncReadsOnlyClient | src/modules/QuickSettingsMenu.js:210-212 | The header `_sync` sets depends on the GameMode client alone, not on the notification state. |
| QuickSettingsMenu.SyncNeverShowsEnabled | src/modules/QuickSettingsMenu.js:207 | With caffeination hard-coded off, the Enabled header is never set. |
| QuickSettingsMenu.HeaderForAsWritten | src/modules/QuickSettingsMenu.js:228-232 | The disabled header as written names `$caffeinate-off-symbolic.svg`. Every other header is the corrected one. |
| QuickSettingsMenu.HeaderFor | src/modules/QuickSettingsMenu.js:215-233 | The corrected headers: each title names its kind, and different kinds get different titles. The icon is the toggle's own off icon (line 50) exactly for the Disabled header. |
| QuickSettingsMenu.DisabledIconFinding | src/modules/QuickSettingsMenu.js:229 | The as-written disabled icon differs from the toggle's own off icon (line 50). The corrected one is the same file. |
| QuickSettingsMenu.ToggleGameMode | src/modules/QuickSettingsMenu.js:255-273 | `_toggleGameMode` changes no state and only logs. With debug on: <ul><li>"enable" with a count of exactly 0 logs only the request line;</li><li>any other "enable" or "disable" adds one more line;</li><li>any other state logs only the request.</li></ul> |
| QuickSettingsMenu.ToggleGameModeNeverRegisters | src/modules/QuickSettingsMenu.js:259-272 | The toggle never registers or unregisters a game. |
| QuickSettingsMenu.PrepareNotify | src/modules/QuickSettingsMenu.js:181-197 | Before the show call, `_notify`: <ul><li>destroys an old notification exactly when one exists;</li><li>creates the source exactly when there is none;</li><li>ends with the new notification.</li></ul> |
| QuickSettingsMenu.NotifyAsWritten | src/modules/QuickSettingsMenu.js:198 | As written, `this.notifySource.showNotification` throws and the notification is never shown. |
| QuickSettingsMenu.Notify | src/modules/QuickSettingsMenu.js:181-199 | The corrected `_notify` ends by showing the new notification and shows no other. |
| QuickSettingsMenu.OnGameModeStateChanged | src/modules/QuickSettingsMenu.js:298-307 | The GameMode notice is shown exactly when `gamemode-enable-notifications` is on, with the title chosen by `state`. The step always ends with `_sync` setting the header. The final header is exactly the one `_sync` alone would set. |
| QuickSettingsMenu.OnGameModeStateChangedAsWritten | src/modules/QuickSettingsMenu.js:298-307 | With notifications off, the as-written callback only re-syncs. |
| QuickSettingsMenu.NotifySourceFinding | src/modules/QuickSettingsMenu.js:198 | With notifications on, the as-written callback throws before `_sync`: no header and no notification. The corrected callback shows the notice and then sets the header. |
| QuickSettingsMenu.OnDestroyAsWritten | src/modules/QuickSettingsMenu.js:82-87 | As written, `_onDestroy` throws in `_disconnectAll`. Nothing is disconnected and the GameMode client is not closed. |
| QuickSettingsMenu.OnDestroy | src/modules/QuickSettingsMenu.js:82-87 | The corrected `_onDestroy` tries every recorded handle once, in order. Then it closes the GameMode client, whose proxy is gone afterwards. No disconnect attempt follows any effect of the close. |
| QuickSettingsMenu.TeardownFinding | src/modules/QuickSettingsMenu.js:84-85 | With a recorded handle, the as-written destroy differs from the intended teardown. |
| Extension.New | src/extension.js:45-53 | The constructor leaves no indicator and an empty, valid registry. |
| Extension.Connect | src/extension.js:96-116 | `_connect` applies the registry rules, and only the registry changes. The calls made are `connect`, then `connectSignal` only when `connect` threw. The id recorded is the one `connect` returned, or else the one `connectSignal` returned. After a throw, the target's entry exists with its set unchanged. |
| Extension.AddIndicator | src/extension.js:156-160 | Afterwards an indicator exists. One is created exactly when none existed. |
| Extension.AddIndicatorIdempotent | src/extension.js:158-159 | Adding twice creates one indicator. |
| Extension.RemoveIndicatorAsWritten | src/extension.js:165-171 | As written, removal throws exactly when an indicator exists, and the indicator survives. |
| Extension.RemoveIndicator | src/extension.js:165-171 | The corrected removal leaves no indicator. It destroys one exactly when one existed. |
| Extension.RemoveIndicatorFinding | src/extension.js:168-169 | With an indicator present, the as-written removal throws and keeps it, while the corrected one removes it. |
| Extension.ToggleIndicator | src/extension.js:178-180 | `_toggleIndicator` changes no state and only logs. |
| Extension.OnSessionModeChanged | src/extension.js:188-194 | A current or parent mode of `user` adds the indicator, creating one exactly when none existed. Otherwise `unlock-dialog` removes it, destroying one exactly when one existed. This step uses the corrected `_removeIndicator`; as written, line 168 throws there and the indicator stays (see `Extension.RemoveIndicatorFinding`). Any other mode changes nothing. |
| Extension.LockThenUnlock | src/extension.js:188-194 | Locking the screen (`unlock-dialog`, parent not `user`) drops the indicator and changes nothing else. The next `user` update creates a fresh indicator. |
| Extension.UnlockThenLock | src/extension.js:188-194 | A second `user` update creates nothing and changes nothing. A lock after a `user` update always destroys the indicator. |
| Extension.EnableSession | src/extension.js:59-66 | The first half of `enable`: the `updated` subscription, then the indicator exactly when `show-in-quickmenu` is on. The session mode's set gains exactly the id obtained. After a throw, only the session mode's (possibly new, empty) entry has been added, and the indicator is untouched. |
| Extension.Enable | src/extension.js:58-72 | `enable` throws exactly when one of the subscriptions fails both connect APIs. Otherwise: <ul><li>the session mode's set gains the id of the `updated` subscription, the settings object's set gains the id of the `changed::show-in-quickmenu` subscription, and no other source changes;</li><li>so on an empty registry, the view afterwards is exactly those two subscriptions;</li><li>it creates the indicator only when `show-in-quickmenu` is on;</li><li>its calls are the session-mode `updated` connect followed by the `changed::show-in-quickmenu` connect.</li></ul>After a throw, the view records what the subscriptions before the failing one added, plus the failing source's entry. The calls made up to the failure are stated as well. When only the settings subscription fails, the indicator added before it stays. |
| Extension.FreshEnableView | src/extension.js:62-69 | On an empty registry, the two updates `enable` makes leave exactly the two sources, each with its one id. `Extension.Enable` uses it for its empty-registry clause. |
| Extension.DisableAsWritten | src/extension.js:77-87 | As written, `disable` throws in `_disconnectAll`. No subscription is removed and the indicator stays. |
| Extension.TeardownEffects | src/extension.js:121-137 | The corrected `_disconnectAll` attempts every recorded handle once, in order. |
| Extension.Disable | src/extension.js:77-87 | The corrected `disable` tries every recorded handle once, then removes the indicator. Nothing escapes. An indicator is destroyed exactly when one existed, and no disconnect attempt follows its destruction. |
| Extension.DisableFinding | src/extension.js:81-84 | With an indicator and a recorded handle, the as-written `disable` keeps the indicator and skips the intended teardown. |
| Prefs.PageName | src/prefs.js:83-92 | Values 0, 1 and 2 name `AboutPrefPage`, `CaffinatePrefPage` and `GamemodePrefPage`. Every other value names nothing. |
| Prefs.SetVisiblePage | src/prefs.js:83-94 | `setVisiblePage` shows the named page, and leaves the visible page alone for other values. It always leaves the setting at 0 (ABOUT). |
| Prefs.OnPageChanged | src/prefs.js:121-125 | The change handler does nothing for ABOUT. For any other value it calls `setVisiblePage` once. That switches the page only for 1 and 2, and always writes ABOUT back. |
| Prefs.Write | src/prefs.js:93 | A write with the handler connected ends with the setting at ABOUT. Its effects are the write, at most one page switch and at most one reset write. Without the handler the written value stays. |
| Prefs.ExternalChangeSwitchesOnce | src/prefs.js:121-125 | One external change causes at most one page switch, exactly one for the values 1 and 2, and it ends with the setting at ABOUT after at most two writes. |
| Prefs.PopulateWindow | src/prefs.js:58-78 | `populateWindow` proceeds as follows: <ul><li>it removes every page previously recorded in `window.pages`, in order;</li><li>other children stay;</li><li>afterwards `window.pages` is exactly three new pages, in the order caffeinate, gamemode, about;</li><li>all three are added;</li><li>the setting ends at ABOUT, with at most one page switch.</li></ul> |
| Prefs.PopulateTwice | src/prefs.js:58-78 | A second `populateWindow` on the same window first removes exactly the three pages the first call added. The window again holds one new page per kind, besides the children neither call recorded, so pages do not pile up. |
| Prefs.EnsureIconsPath | src/prefs.js:109-112 | The icons path is added only when absent, and is present afterwards. |
| Prefs.EnsureIconsPathIdempotent | src/prefs.js:109-112 | The guard is idempotent. It adds nothing but the icons path. |
| Prefs.Construct | src/prefs.js:104-129 | The constructor leaves: <ul><li>the handler connected with its id;</li><li>the setting at ABOUT;</li><li>the title and search flag set;</li><li>the icons path present;</li><li>the page list as built by `populateWindow`.</li></ul> |
| Prefs.DestroyAsWritten | src/prefs.js:134-139 | As written, `destroy` tests a field that is never set, so it does nothing. |
| Prefs.Destroy | src/prefs.js:134-139 | The corrected `destroy` disconnects the handler and clears the id exactly when a non-zero id is held. |
| Prefs.DestroyFinding | src/prefs.js:135 | After the window is closed, a later change of the setting has different outcomes. As written, the handler is still connected, so the change still switches the closed window's page. Corrected, the change switches nothing. |

## Left out

- The D-Bus transport is not modelled: proxy construction, `*Remote` calls and the interface XML. Proxy reads and replies are inputs.
- Asynchronous timing is not modelled. Each callback is one atomic step.
- The GNOME Shell UI is not modelled: `_init` and `_buildMenu` of the toggle, `CaffeinateIndicator`, PopupMenu items, MessageTray objects beyond create/destroy/show effects, and GSettings bindings. These only construct widgets.
- Translation is not modelled: `init()` of both entry points, `gettext`, and the `Me.metadata.gettext-domain` expression in `src/prefs.js`. Titles are kept as the source spells them.
- `Signals.addSignalMethods` internals are not modelled. `emit` is an effect and `disconnectAll` is the `DisconnectListeners` effect.
- `_toggleCaffeination` and `_onCaffeinateStateChanged` in `src/modules/QuickSettingsMenu.js` are not modelled. The first is empty. The second is not connected to anything, because the caffeination client is a stub. `src/modules/CaffeinateClient.js` is not part of this model.
- The page classes in `src/preferences/` hold no logic and are not part of this model. The module-level imports in `src/prefs.js:39-41` bind `AboutPage`, `CaffeinatePage` and `GameModePage`. `populateWindow` constructs `CaffeinatePrefPage`, `GameModePrefPage` and `AboutPrefPage` instead. The model takes those constructors to resolve, and pages are identified by kind and a serial number.
- The model does not check whether the window holds a page with the requested name. `setVisiblePage` asks for `CaffinatePrefPage`, while `src/preferences/CaffeinatePrefs.js:42` names its page `CaffeinatePrefPage`.
- `JsNumber.ParseInt`: white space covers the ASCII set plus NBSP, ZWNBSP, LS and PS, but not the other Unicode space separators. The result is an unbounded integer, not a double, so precision loss beyond 2^53 is not modelled.
- `Registry.Connect`: the debug and error lines `_connect` logs are not among its effects, because they interpolate JavaScript's text of the target and handler (`${target}`, `${hook}`).
- `Extension.Connect`: the same logging is left out, for the same reason.
- `Registry.Connect`: a handler id that is already recorded under another source is not rejected, because the source does not check for it.
- `Prefs.Write`: every write of the setting is taken to run the connected handler at once. Whether GSettings notifies a write of an unchanged value makes no difference, because the handler ignores ABOUT.
- `Prefs.PopulateWindow`: it requires fresh serial numbers. This is a bookkeeping condition of the model, not of the source.

The model follows the code in four places where a reader might expect otherwise:

- `close()` keeps `client_count`.
- The corrected teardown does not clear the `Map`, just as the source never clears it.
- `_connect` creates the target's entry before trying to connect. A connect that fails both ways therefore leaves an empty set behind.
- A proxy that comes up without a cached `ClientCount` (null) moves the cached count from 0 to null without any signal. A later count of 0 is then announced as a change (see `GameModeClient.ReadyThenRun`). A negative cached count is excluded there too, since the daemon never reports one.

## Findings

| source | as written | input that shows it | evidently intended | confidence | as-written member | corrected member |
|---|---|---|---|---|---|---|
| src/modules/QuickSettingsMenu.js:122 | `for (... of this._conncetions)` iterates a field that is never set, so it throws a TypeError | any registry with one handle, e.g. `Main.sessionMode` with id 7 | iterate `this._connections` and try every handle | not executed | Registry.DisconnectAllAsWritten, QuickSettingsMenu.OnDestroyAsWritten | Registry.DisconnectAll, QuickSettingsMenu.OnDestroy |
| src/extension.js:122 | the same misspelt field in the extension's `_disconnectAll`, so `disable` throws before removing anything | an enabled extension with an indicator and one subscription | disconnect every subscription, then remove the indicator | not executed | Extension.DisableAsWritten | Extension.Disable |
| src/extension.js:168-169 | the guard reads `this._indicator` but the body uses `this.indicator`, which is undefined | `_removeIndicator` with an indicator present | destroy and clear `this._indicator` | not executed | Extension.RemoveIndicatorAsWritten | Extension.RemoveIndicator |
| src/modules/QuickSettingsMenu.js:85 | `this._client.close()` reads a field that is never set. It is masked because line 84 throws first | `_onDestroy` on any menu | close `this._gameModeClient` | not executed | QuickSettingsMenu.OnDestroyAsWritten | QuickSettingsMenu.OnDestroy |
| src/modules/QuickSettingsMenu.js:198 | `this.notifySource.showNotification(...)` reads an unset field, so the notification is never shown and `_sync` is skipped | `state-changed` with `gamemode-enable-notifications` on | show through `this._notifySource`, then re-sync | not executed | QuickSettingsMenu.NotifyAsWritten, QuickSettingsMenu.OnGameModeStateChangedAsWritten | QuickSettingsMenu.Notify, QuickSettingsMenu.OnGameModeStateChanged |
| src/modules/QuickSettingsMenu.js:229 | the icon path has a stray `$` (`.../icons/$caffeinate-off-symbolic.svg`) | `_sync` with GameMode inactive | `.../icons/caffeinate-off-symbolic.svg`, the toggle's own off icon | not executed | QuickSettingsMenu.HeaderForAsWritten | QuickSettingsMenu.HeaderFor |
| src/prefs.js:135 | `destroy` tests `this.pageChangedId`, which is never set, so the handler is never disconnected | close the window, then set `prefs-visible-page` to 1 | test `this._pageChangedId` | not executed | Prefs.DestroyAsWritten | Prefs.Destroy |

The lemmas that show each discrepancy:

- `QuickSettingsMenu.TeardownFinding` and `Registry.AsWrittenTeardownSkipsHandles`: the misspelt Map field.
- `Extension.DisableFinding`: the misspelt field in `disable`.
- `Extension.RemoveIndicatorFinding`: the wrong indicator field.
- `QuickSettingsMenu.NotifySourceFinding`: the notification source.
- `QuickSettingsMenu.DisabledIconFinding`: the icon path.
- `Prefs.DestroyFinding`: the handler id field.
