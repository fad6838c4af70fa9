/** The preferences window (`src/prefs.js`): which page an integer setting
    selects, the handler that follows changes of that setting and resets it,
    the page list the window is filled with, the icon search-path guard and
    the handler's teardown when the window closes. */
module Prefs {
  import opened Base

  // ---------------------------------------------------------------------
  // Page selection

  /** `PrefsVisiblePage`: the values of the `prefs-visible-page` key. */
  const AboutValue: int := 0
  const CaffeinateValue: int := 1
  const GameModeValue: int := 2

  /** The page name `setVisiblePage` asks the window for; None when the
      value is none of the three and the visible page is left alone. */
  function PageName(v: int): (r: Option<string>)
    ensures r.Some? <==> AboutValue <= v <= GameModeValue
    ensures v == AboutValue ==> r == Some("AboutPrefPage")
    ensures v == CaffeinateValue ==> r == Some("CaffinatePrefPage")
    ensures v == GameModeValue ==> r == Some("GamemodePrefPage")
  {
    if v == AboutValue then Some("AboutPrefPage")
    else if v == CaffeinateValue then Some("CaffinatePrefPage")
    else if v == GameModeValue then Some("GamemodePrefPage")
    else None
  }

  /** Different values select different pages. */
  lemma PageNamesDistinct(v: int, w: int)
    requires PageName(v).Some? && PageName(v) == PageName(w)
    ensures v == w
  {
  }

  // ---------------------------------------------------------------------
  // State

  datatype PageKind = CaffeinatePage | GameModePage | AboutPage

  /** A page object; `serial` tells two constructions of the same kind apart. */
  datatype Page = Page(kind: PageKind, serial: nat)

  /** The `Adw.PreferencesWindow`: the `pages` array the code keeps on it
      (undefined until the first fill), the pages actually added to it, the
      requested visible page, the title and whether search is on. */
  datatype Window = Window(pages: Option<seq<Page>>, children: seq<Page>, visible: Option<string>,
                           title: Option<string>, searchEnabled: bool)

  /** The `prefs-visible-page` key, and whether the `changed::prefs-visible-page`
      handler is connected on the settings object. */
  datatype Settings = Settings(value: int, handlerConnected: bool)

  /** The window, the settings, `this._pageChangedId`, the icon theme's
      search path and the next page serial. */
  datatype State = State(window: Window, settings: Settings, pageChangedId: Option<int>,
                         searchPath: seq<string>, nextSerial: nat)

  datatype Effect =
    | WriteSetting(value: int)
    | ShowPage(name: string)
    | RemovePage(page: Page)
    | AddPage(page: Page)
    | DisconnectHandler(id: int)

  datatype Step = Step(state: State, effects: seq<Effect>)

  /** The page switches among `effects`, in order. */
  function Shown(effects: seq<Effect>): seq<string>
    decreases |effects|
  {
    if effects == [] then []
    else (if effects[0].ShowPage? then [effects[0].name] else []) + Shown(effects[1..])
  }

  /** The writes of the setting among `effects`, in order. */
  function Writes(effects: seq<Effect>): seq<int>
    decreases |effects|
  {
    if effects == [] then []
    else (if effects[0].WriteSetting? then [effects[0].value] else []) + Writes(effects[1..])
  }

  lemma {:induction false} ShownAppend(a: seq<Effect>, b: seq<Effect>)
    ensures Shown(a + b) == Shown(a) + Shown(b)
    ensures Writes(a + b) == Writes(a) + Writes(b)
    decreases |a|
  {
    if a != [] {
      assert (a + b)[0] == a[0] && (a + b)[1..] == a[1..] + b;
      ShownAppend(a[1..], b);
    } else {
      assert a + b == b;
    }
  }

  /** The page switch `setVisiblePage` makes for value `v`, if any. */
  function SwitchFor(v: int): seq<Effect>
  {
    if PageName(v).Some? then [ShowPage(PageName(v).value)] else []
  }

  // ---------------------------------------------------------------------
  // setVisiblePage and the change handler

  /** `settings.set_int('prefs-visible-page', v)`. GSettings emits
      `changed::prefs-visible-page` synchronously, so a connected handler
      runs inside the write. The model lets every write notify: whether a
      write of an unchanged value notifies does not alter any result here,
      because the handler ignores ABOUT. */
  function Write(s: State, v: int): (r: Step)
    decreases if v == AboutValue then 1 else 4
    ensures r.effects != [] && r.effects[0] == WriteSetting(v)
    ensures r.state.settings.value == (if s.settings.handlerConnected then AboutValue else v)
    ensures r.state == s.(settings := r.state.settings, window := r.state.window)
    ensures r.state.settings.handlerConnected == s.settings.handlerConnected
    ensures r.state.window == s.window.(visible := r.state.window.visible)
    ensures r.effects == [WriteSetting(v)]
                         + (if s.settings.handlerConnected && v != AboutValue
                            then SwitchFor(v) + [WriteSetting(AboutValue)] else [])
    ensures r.state.window.visible ==
              (if s.settings.handlerConnected && v != AboutValue && PageName(v).Some?
               then PageName(v) else s.window.visible)
  {
    var s1 := s.(settings := s.settings.(value := v));
    if s.settings.handlerConnected then
      var h := OnPageChanged(s1);
      Step(h.state, [WriteSetting(v)] + h.effects)
    else Step(s1, [WriteSetting(v)])
  }

  /** The `changed::prefs-visible-page` handler: it calls `setVisiblePage`
      only when the value is not ABOUT, so the handler's own reset to ABOUT
      does not switch again. */
  function OnPageChanged(s: State): (r: Step)
    requires s.settings.handlerConnected
    decreases if s.settings.value == AboutValue then 0 else 3
    ensures r.state.settings == s.settings.(value := AboutValue)
    ensures r.state == s.(settings := r.state.settings, window := r.state.window)
    ensures r.state.window == s.window.(visible := r.state.window.visible)
    ensures s.settings.value == AboutValue ==> r == Step(s, [])
    ensures s.settings.value != AboutValue ==>
              r.effects == SwitchFor(s.settings.value) + [WriteSetting(AboutValue)]
    ensures r.state.window.visible ==
              (if s.settings.value != AboutValue && PageName(s.settings.value).Some?
               then PageName(s.settings.value) else s.window.visible)
  {
    if s.settings.value != AboutValue then SetVisiblePage(s) else Step(s, [])
  }

  /** `setVisiblePage(window, settings)`: show the page the setting names
      (nothing for any other value), then write ABOUT back. */
  function SetVisiblePage(s: State): (r: Step)
    decreases 2
    ensures r.state.settings == s.settings.(value := AboutValue)
    ensures r.state == s.(settings := r.state.settings, window := r.state.window)
    ensures r.state.window == s.window.(visible := if PageName(s.settings.value).Some?
                                                   then PageName(s.settings.value) else s.window.visible)
    ensures r.effects == SwitchFor(s.settings.value) + [WriteSetting(AboutValue)]
  {
    var name := PageName(s.settings.value);
    var s1 := if name.Some? then s.(window := s.window.(visible := name)) else s;
    var w := Write(s1, AboutValue);
    Step(w.state, SwitchFor(s.settings.value) + w.effects)
  }

  /** One change of the setting from outside the window, with the handler
      connected: at most one page switch, exactly one for a page value other
      than ABOUT, and the setting ends at ABOUT after at most two writes. */
  lemma ExternalChangeSwitchesOnce(s: State, v: int)
    requires s.settings.handlerConnected
    ensures var r := Write(s, v);
            && r.state.settings.value == AboutValue
            && |Shown(r.effects)| <= 1
            && (|Shown(r.effects)| == 1 <==> v == CaffeinateValue || v == GameModeValue)
            && (v == CaffeinateValue || v == GameModeValue ==> Shown(r.effects) == [PageName(v).value])
            && |Writes(r.effects)| <= 2
            && Writes(r.effects)[|Writes(r.effects)| - 1] == AboutValue
  {
    var r := Write(s, v);
    var sw := SwitchFor(v);
    assert Shown([WriteSetting(v)]) == [] && Writes([WriteSetting(v)]) == [v];
    assert Shown([WriteSetting(AboutValue)]) == [] && Writes([WriteSetting(AboutValue)]) == [AboutValue];
    assert Writes(sw) == [];
    assert Shown(sw) == if PageName(v).Some? then [PageName(v).value] else [];
    if v != AboutValue {
      ShownAppend(sw, [WriteSetting(AboutValue)]);
      ShownAppend([WriteSetting(v)], sw + [WriteSetting(AboutValue)]);
    } else {
      assert r.effects == [WriteSetting(v)];
    }
  }

  // ---------------------------------------------------------------------
  // populateWindow

  /** `window.remove(page)`: the page is no longer among the children. */
  function Without(children: seq<Page>, p: Page): (r: seq<Page>)
    ensures forall q :: q in r <==> q in children && q != p
    decreases |children|
  {
    if children == [] then []
    else (if children[0] == p then [] else [children[0]]) + Without(children[1..], p)
  }

  /** `pages.forEach(page => window.remove(page))`, one removal per page. */
  function RemoveEach(children: seq<Page>, pages: seq<Page>): (r: seq<Page>)
    ensures forall q :: q in r <==> q in children && q !in pages
    decreases |pages|
  {
    if pages == [] then children
    else RemoveEach(Without(children, pages[0]), pages[1..])
  }

  function RemoveEffects(pages: seq<Page>): (r: seq<Effect>)
    ensures |r| == |pages| && forall i :: 0 <= i < |r| ==> r[i] == RemovePage(pages[i])
  {
    seq(|pages|, i requires 0 <= i < |pages| => RemovePage(pages[i]))
  }

  /** Serial numbers below `nextSerial` are taken. */
  predicate Fresh(s: State)
  {
    && (forall p :: p in s.window.children ==> p.serial < s.nextSerial)
    && (s.window.pages.Some? ==> forall p :: p in s.window.pages.value ==> p.serial < s.nextSerial)
  }

  function Kinds(pages: seq<Page>): (r: seq<PageKind>)
    ensures |r| == |pages| && forall i :: 0 <= i < |r| ==> r[i] == pages[i].kind
  {
    seq(|pages|, i requires 0 <= i < |pages| => pages[i].kind)
  }

  /** `populateWindow(window, settings)`: every page in `window.pages` (when
      it is a non-empty array) is removed; three new pages are built, added
      and recorded in the order caffeinate, gamemode, about; then
      `setVisiblePage` runs. */
  method PopulateWindow(s: State) returns (r: Step)
    requires Fresh(s)
    ensures Fresh(r.state)
    ensures r.state.window.pages.Some? && Kinds(r.state.window.pages.value) == [CaffeinatePage, GameModePage, AboutPage]
    ensures r.state.settings == s.settings.(value := AboutValue)
    ensures r.state.pageChangedId == s.pageChangedId && r.state.searchPath == s.searchPath
    ensures r.state.window.title == s.window.title && r.state.window.searchEnabled == s.window.searchEnabled
    ensures var previous := if s.window.pages.Some? then s.window.pages.value else [];
            && (forall p :: p in previous ==> p !in r.state.window.children)
            && (forall p :: p in s.window.children && p !in previous ==> p in r.state.window.children)
            && (forall p :: p in r.state.window.pages.value ==> p in r.state.window.children && p !in s.window.children)
            && (forall p :: p in r.state.window.children ==>
                  p in r.state.window.pages.value || (p in s.window.children && p !in previous))
            && |r.effects| >= |previous| && r.effects[..|previous|] == RemoveEffects(previous)
    ensures r.state.window.visible == (if PageName(s.settings.value).Some? then PageName(s.settings.value) else s.window.visible)
    ensures |Shown(r.effects)| <= 1
  {
    var previous := if s.window.pages.Some? && |s.window.pages.value| > 0 then s.window.pages.value else [];
    var n := s.nextSerial;
    var added := [Page(CaffeinatePage, n), Page(GameModePage, n + 1), Page(AboutPage, n + 2)];
    var kept := RemoveEach(s.window.children, previous);
    var s1 := s.(window := s.window.(pages := Some(added), children := kept + added), nextSerial := n + 3);
    assert Kinds(added) == [CaffeinatePage, GameModePage, AboutPage];
    var v := SetVisiblePage(s1);
    var removes := RemoveEffects(previous);
    var adds := [AddPage(added[0]), AddPage(added[1]), AddPage(added[2])];
    PopulateShown(previous, adds, v.effects, s.settings.value);
    assert (removes + adds + v.effects)[..|previous|] == removes;
    r := Step(v.state, removes + adds + v.effects);
  }

  /** Filling the same window twice: the second fill removes exactly the
      pages the first one added, first of all, so pages do not pile up. The
      window ends with three new pages, one per kind, beside the children
      it had that no fill recorded. */
  method PopulateTwice(s: State) returns (first: Step, second: Step)
    requires Fresh(s)
    ensures first.state.window.pages.Some? && second.state.window.pages.Some?
    ensures Kinds(second.state.window.pages.value) == Kinds(first.state.window.pages.value)
                                                  == [CaffeinatePage, GameModePage, AboutPage]
    ensures forall p :: p in first.state.window.pages.value ==> p !in second.state.window.children
    ensures |second.effects| >= 3 && second.effects[..3] == RemoveEffects(first.state.window.pages.value)
    ensures forall p :: p in second.state.window.children ==>
              p in second.state.window.pages.value || (p in s.window.children && p !in first.state.window.pages.value)
    ensures second.state.settings == s.settings.(value := AboutValue)
  {
    first := PopulateWindow(s);
    second := PopulateWindow(first.state);
  }

  lemma PopulateShown(previous: seq<Page>, adds: seq<Effect>, tail: seq<Effect>, value: int)
    requires forall i :: 0 <= i < |adds| ==> adds[i].AddPage?
    requires tail == SwitchFor(value) + [WriteSetting(AboutValue)]
    ensures |Shown(RemoveEffects(previous) + adds + tail)| <= 1
  {
    NoShown(RemoveEffects(previous) + adds);
    ShownAppend(RemoveEffects(previous) + adds, tail);
    ShownAppend(SwitchFor(value), [WriteSetting(AboutValue)]);
    assert Shown([WriteSetting(AboutValue)]) == [];
  }

  lemma {:induction false} NoShown(effects: seq<Effect>)
    requires forall i :: 0 <= i < |effects| ==> !effects[i].ShowPage?
    ensures Shown(effects) == []
    decreases |effects|
  {
    if effects != [] {
      NoShown(effects[1..]);
    }
  }

  // ---------------------------------------------------------------------
  // The constructor and destroy()

  /** The icon directory of the extension. */
  function IconsPath(mePath: string): string
  {
    mePath + "/icons"
  }

  /** `if (!searchPath.includes(icons)) add_search_path(icons)`. */
  function EnsureIconsPath(searchPath: seq<string>, mePath: string): (r: seq<string>)
    ensures IconsPath(mePath) in r
    ensures IconsPath(mePath) in searchPath ==> r == searchPath
    ensures IconsPath(mePath) !in searchPath ==> r == searchPath + [IconsPath(mePath)]
  {
    if IconsPath(mePath) in searchPath then searchPath else searchPath + [IconsPath(mePath)]
  }

  /** Running the guard twice adds the path once. */
  lemma EnsureIconsPathIdempotent(searchPath: seq<string>, mePath: string)
    ensures EnsureIconsPath(EnsureIconsPath(searchPath, mePath), mePath) == EnsureIconsPath(searchPath, mePath)
    ensures forall p :: p in EnsureIconsPath(searchPath, mePath) <==> p in searchPath || p == IconsPath(mePath)
  {
  }

  /** `new Preferences(window)`: the icon path guard, the title and search
      flag, the handler connected with id `handlerId`, then `populateWindow`.
      The title is the source's text; translation is not modelled. */
  method Construct(s: State, mePath: string, handlerId: int) returns (r: Step)
    requires Fresh(s)
    ensures r.state.settings == Settings(AboutValue, true)
    ensures r.state.pageChangedId == Some(handlerId)
    ensures r.state.searchPath == EnsureIconsPath(s.searchPath, mePath)
    ensures r.state.window.title == Some("Caffinate Settings") && r.state.window.searchEnabled
    ensures r.state.window.pages.Some? && Kinds(r.state.window.pages.value) == [CaffeinatePage, GameModePage, AboutPage]
    ensures |Shown(r.effects)| <= 1
  {
    var s1 := s.(searchPath := EnsureIconsPath(s.searchPath, mePath),
                 window := s.window.(title := Some("Caffinate Settings"), searchEnabled := true),
                 settings := s.settings.(handlerConnected := true),
                 pageChangedId := Some(handlerId));
    r := PopulateWindow(s1);
  }

  /** A JavaScript number in an `if`: zero is falsy. */
  predicate TruthyId(id: Option<int>)
  {
    id.Some? && id.value != 0
  }

  /** `destroy()` as written: it tests `this.pageChangedId`, a field that is
      never assigned (the id is kept in `this._pageChangedId`), so the test
      is always false and the handler stays connected. */
  function DestroyAsWritten(s: State): (r: Step)
    ensures r == Step(s, [])
  {
    var pageChangedId: Option<int> := None;
    if TruthyId(pageChangedId) then Destroy(s) else Step(s, [])
  }

  /** `destroy()` testing `this._pageChangedId`: the handler is disconnected
      and the id cleared when one is held. */
  function Destroy(s: State): (r: Step)
    ensures TruthyId(s.pageChangedId) ==>
              && r.state == s.(settings := s.settings.(handlerConnected := false), pageChangedId := None)
              && r.effects == [DisconnectHandler(s.pageChangedId.value)]
    ensures !TruthyId(s.pageChangedId) ==> r == Step(s, [])
    ensures !TruthyId(r.state.pageChangedId)
  {
    if TruthyId(s.pageChangedId) then
      Step(s.(settings := s.settings.(handlerConnected := false), pageChangedId := None),
           [DisconnectHandler(s.pageChangedId.value)])
    else Step(s, [])
  }

  /** Closing a window built by the constructor (handler connected, a
      non-zero id held): as written the handler survives, so a later change
      of the setting still switches the closed window's page; with the
      corrected test the same change switches nothing and the value stays
      as written. */
  lemma DestroyFinding(built: State, handlerId: int)
    requires built.settings.handlerConnected && built.pageChangedId == Some(handlerId) && handlerId != 0
    ensures var after := Write(DestroyAsWritten(built).state, CaffeinateValue);
            && Shown(after.effects) == ["CaffinatePrefPage"]
            && after.state.settings.value == AboutValue
    ensures var after := Write(Destroy(built).state, CaffeinateValue);
            && Shown(after.effects) == []
            && after.state.settings.value == CaffeinateValue
  {
    var tail := [ShowPage("CaffinatePrefPage"), WriteSetting(AboutValue)];
    ShownAppend([WriteSetting(CaffeinateValue)], tail);
    assert tail[1..] == [WriteSetting(AboutValue)];
    assert [WriteSetting(AboutValue)][1..] == [];
    assert [WriteSetting(CaffeinateValue)][1..] == [];
  }
}
