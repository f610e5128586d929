/** The controller (lib/src/controller/mod.rs): the in-memory store of page
    configurations, the plugin registry, and the page instances built from
    a configuration for the device loop. The tokio runtime and channels are
    reduced to flags: whether `start` has run and whether an event emitter
    is available. */
module Controller {
  import opened Wrappers
  import opened Bytes
  import opened Constants
  import opened Registry

  /** A key on the centre screen. `KeyLocation` is defined outside the model;
      the editor reads and writes its `x` and `y`. */
  datatype KeyLocation = KeyLocation(x: nat, y: nat)

  /** `PageConfig`: a named page binding key locations to plugin screens. The
      screen is a map, so a location holds at most one binding. */
  datatype PageConfig = PageConfig(name: string, screen: map<KeyLocation, PluginIdentifier>)

  /** A screen created by a plugin factory for one key: the factory it came
      from and the `PluginScreenContext` it was given (the centre screen and
      the key). */
  datatype ScreenInstance = ScreenInstance(factory: ScreenFactory, screen: Screen, location: KeyLocation)

  /** `Page`: a page with live screen instances. */
  datatype Page = Page(name: string, screen: map<KeyLocation, ScreenInstance>)

  /** `Controller`, with the runtime and the controller state both present
      exactly when `running` holds, and the event emitter as a flag. */
  datatype Controller = Controller(registry: Registry, pages: map<string, PageConfig>, running: bool, hasEmitter: bool)

  /** `Controller::new`. */
  const NewController := Controller(EmptyRegistry, map[], false, false)

  /** Every stored page is stored under its own name. */
  ghost predicate PagesKeyedByName(c: Controller)
  {
    forall n :: n in c.pages ==> c.pages[n].name == n
  }

  // ---------------------------------------------------------------------
  // The page store
  // ---------------------------------------------------------------------

  /** `set_page`: store the page under its name, replacing any page of that
      name; it always succeeds and no other page changes. */
  function SetPage(c: Controller, page: PageConfig): (r: Controller)
    ensures page.name in r.pages && r.pages[page.name] == page
    ensures r.pages.Keys == c.pages.Keys + {page.name}
    ensures forall n :: n in c.pages && n != page.name ==> r.pages[n] == c.pages[n]
    ensures r.registry == c.registry && r.running == c.running && r.hasEmitter == c.hasEmitter
  {
    c.(pages := c.pages[page.name := page])
  }

  /** Storing a page keeps every page under its own name. */
  lemma SetPageKeepsNames(c: Controller, page: PageConfig)
    requires PagesKeyedByName(c)
    ensures PagesKeyedByName(SetPage(c, page))
  {
  }

  /** `get_page`: a copy of the page stored under `name`, if there is one. */
  function GetPage(c: Controller, name: string): (r: Option<PageConfig>)
    ensures r.None? <==> name !in c.pages
  {
    if name in c.pages then Some(c.pages[name]) else None
  }

  /** Reading a page back after storing it gives that page; reading any
      other name gives what it gave before. */
  lemma GetAfterSet(c: Controller, page: PageConfig, name: string)
    ensures GetPage(SetPage(c, page), name) == if name == page.name then Some(page) else GetPage(c, name)
  {
  }

  /** `get_page_names`: every stored name once, in the map's iteration
      order, which the model leaves open. */
  method GetPageNames(c: Controller) returns (names: seq<string>)
    ensures forall n :: n in names <==> n in c.pages
    ensures forall i, j :: 0 <= i < j < |names| ==> names[i] != names[j]
    ensures |names| == |c.pages|
  {
    names := [];
    var rest := c.pages.Keys;
    while rest != {}
      invariant rest <= c.pages.Keys
      invariant forall n :: n in names <==> n in c.pages && n !in rest
      invariant forall i, j :: 0 <= i < j < |names| ==> names[i] != names[j]
      invariant |names| + |rest| == |c.pages|
      decreases |rest|
    {
      var n :| n in rest;
      names := names + [n];
      rest := rest - {n};
    }
  }

  // ---------------------------------------------------------------------
  // Page instances
  // ---------------------------------------------------------------------

  /** A binding can be instantiated: its plugin is loaded and registered a
      screen under the binding's name. */
  predicate Resolvable(registry: Registry, id: PluginIdentifier)
  {
    id.pluginId in registry.plugins && id.pluginRef in registry.plugins[id.pluginId].screens
  }

  /** The factory a resolvable binding refers to. */
  function FactoryOf(registry: Registry, id: PluginIdentifier): ScreenFactory
    requires Resolvable(registry, id)
  {
    registry.plugins[id.pluginId].screens[id.pluginRef]
  }

  /** `create_page_instance`: the page keeps its name, and each binding whose
      plugin and screen are registered becomes a screen instance for its key
      on the centre screen; other bindings are skipped. Without an event
      emitter no instance is created at all. */
  function CreatePageInstance(c: Controller, config: PageConfig): (p: Page)
    ensures p.name == config.name
    ensures forall loc :: loc in p.screen <==> c.hasEmitter && loc in config.screen && Resolvable(c.registry, config.screen[loc])
    ensures forall loc :: loc in p.screen ==>
              p.screen[loc] == ScreenInstance(FactoryOf(c.registry, config.screen[loc]), Center, loc)
  {
    if !c.hasEmitter then Page(config.name, map[])
    else
      Page(config.name,
           map loc | loc in config.screen && Resolvable(c.registry, config.screen[loc])
             :: ScreenInstance(FactoryOf(c.registry, config.screen[loc]), Center, loc))
  }

  /** Loading a plugin can only add instances to a page: a binding that was
      resolvable before stays resolvable unless the load replaced its plugin,
      and every binding to a screen the new plugin registered resolves. */
  lemma LoadResolves(c: Controller, host: HostVersions, decl: PluginDeclaration, id: PluginIdentifier)
    requires LoadFromPath(c.registry, host, decl).status.Ok?
    ensures var after := LoadFromPath(c.registry, host, decl).registry;
            && (id.pluginId != decl.pluginId ==> (Resolvable(after, id) <==> Resolvable(c.registry, id)))
            && (id.pluginId == decl.pluginId ==> (Resolvable(after, id) <==> id.pluginRef in RegisteredNames(decl.registrations)))
  {
  }

  /** `set_current_page`: an unknown name does nothing. A known name is
      instantiated and, once the controller runs, sent to the device loop;
      the returned page is that notification. The call always succeeds and
      changes no state of the controller. */
  function SetCurrentPage(c: Controller, name: string): (notify: Option<Page>)
    ensures notify.Some? <==> name in c.pages && c.running
    ensures notify.Some? ==> notify.value == CreatePageInstance(c, c.pages[name])
  {
    if name !in c.pages then None
    else
      var page := CreatePageInstance(c, c.pages[name]);
      if c.running then Some(page) else None
  }

  /** With pages keyed by name, the page sent to the loop carries the name
      that was asked for. */
  lemma SetCurrentPageName(c: Controller, name: string)
    requires PagesKeyedByName(c)
    requires SetCurrentPage(c, name).Some?
    ensures SetCurrentPage(c, name).value.name == name
  {
  }

  // ---------------------------------------------------------------------
  // Status, start and plugin listing
  // ---------------------------------------------------------------------

  /** `DeviceConnectionStatus`. */
  datatype ConnectionStatus = Connecting | Connected | Disconnected

  /** `get_connection_status`: disconnected until `start` has created the
      runtime, connected afterwards; it never reports `Connecting`. */
  function GetConnectionStatus(c: Controller): (r: Result<ConnectionStatus, IoError>)
    ensures r.Ok?
    ensures r.value == Disconnected <==> !c.running
    ensures r.value != Connecting
  {
    if !c.running then Ok(Disconnected) else Ok(Connected)
  }

  /** `start`: creates the runtime, the controller state and the event
      emitter; pages and plugins are untouched. The loop it spawns is
      modelled by the routing module. The device handed in is taken to be
      connected: building the emitter unwraps the device's runtime and send
      channel, which only a successful `connect` sets. The emitter stored in
      the optional field is read as `Some(emitter)`. */
  function Start(c: Controller): (r: Controller)
    ensures r.running && r.hasEmitter
    ensures r.pages == c.pages && r.registry == c.registry
  {
    c.(running := true, hasEmitter := true)
  }

  /** A started controller reports itself connected. */
  lemma StartConnects(c: Controller)
    ensures GetConnectionStatus(Start(c)) == Ok(Connected)
  {
  }

  /** After `start`, asking for a stored page always notifies the loop, and
      the page holds an instance for every resolvable binding. */
  lemma StartedPageInstances(c: Controller, name: string, loc: KeyLocation)
    requires name in c.pages
    ensures var notify := SetCurrentPage(Start(c), name);
            && notify.Some?
            && (loc in notify.value.screen <==> loc in c.pages[name].screen && Resolvable(c.registry, c.pages[name].screen[loc]))
  {
  }

  /** `list_plugins`: one identifier for each screen of each loaded plugin,
      each once, in the maps' iteration order; it always succeeds. */
  method ListPlugins(c: Controller) returns (ids: seq<PluginIdentifier>)
    ensures forall id :: id in ids <==> Resolvable(c.registry, id)
    ensures forall i, j :: 0 <= i < j < |ids| ==> ids[i] != ids[j]
  {
    var plugins := c.registry.plugins;
    ids := [];
    var restIds := plugins.Keys;
    while restIds != {}
      invariant restIds <= plugins.Keys
      invariant forall id :: id in ids <==> Resolvable(c.registry, id) && id.pluginId !in restIds
      invariant forall i, j :: 0 <= i < j < |ids| ==> ids[i] != ids[j]
      decreases |restIds|
    {
      var key :| key in restIds;
      var screens := plugins[key].screens;
      var restScreens := screens.Keys;
      var before := ids;
      while restScreens != {}
        invariant restScreens <= screens.Keys
        invariant forall id :: id in ids <==>
                    id in before || (id.pluginId == key && id.pluginRef in screens && id.pluginRef !in restScreens)
        invariant forall i, j :: 0 <= i < j < |ids| ==> ids[i] != ids[j]
        decreases |restScreens|
      {
        var screenKey :| screenKey in restScreens;
        ids := ids + [PluginIdentifier(key, screenKey)];
        restScreens := restScreens - {screenKey};
      }
      restIds := restIds - {key};
    }
  }
}
