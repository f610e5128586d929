/** The plugin registry (lib/src/controller/plugin.rs): a plugin's
    `register` entry point fills a temporary registrar with named screen
    factories, and `load_from_path` files the result under the plugin's id
    once the plugin was built against the host's compiler and core
    versions. Loading the shared library itself is outside the model: a
    plugin is given by its declaration. */
module Registry {
  import opened Wrappers

  /** `PluginIdentifier`: a screen is named by its plugin's id and the name
      it was registered under; equality is field by field. */
  datatype PluginIdentifier = PluginIdentifier(pluginId: string, pluginRef: string)

  /** A screen factory exported by a plugin, kept as an opaque handle. */
  datatype ScreenFactory = ScreenFactory(handle: nat)

  /** The options a plugin passes with a registration, kept opaque: the
      registrar does not look at them. */
  datatype ScreenOptions = ScreenOptions(handle: nat)

  /** `TempPluginRegistrar`: the screens registered so far. */
  datatype Registrar = Registrar(screens: map<string, ScreenFactory>)

  /** `TempPluginRegistrar::new`. */
  const EmptyRegistrar := Registrar(map[])

  /** The error of an I/O result; `register_screen` never produces one. */
  datatype IoError = IoError(message: string)

  /** `register_screen`: file `create` under `name`, replacing an earlier
      factory of that name. The options are not consulted and the call
      always succeeds. */
  function RegisterScreen(reg: Registrar, name: string, options: ScreenOptions, create: ScreenFactory): (r: Result<Registrar, IoError>)
    ensures r.Ok?
    ensures name in r.value.screens && r.value.screens[name] == create
    ensures r.value.screens.Keys == reg.screens.Keys + {name}
    ensures forall n :: n in reg.screens && n != name ==> r.value.screens[n] == reg.screens[n]
  {
    Ok(Registrar(reg.screens[name := create]))
  }

  /** Whatever options come with a registration, the registrar ends up the same. */
  lemma RegisterScreenIgnoresOptions(reg: Registrar, name: string, a: ScreenOptions, b: ScreenOptions, create: ScreenFactory)
    ensures RegisterScreen(reg, name, a, create) == RegisterScreen(reg, name, b, create)
  {
  }

  /** `LocalLoadedPlugin`, without the library handle it keeps alive. */
  datatype LoadedPlugin = LoadedPlugin(pluginId: string, screens: map<string, ScreenFactory>)

  /** `to_local_plugin`: the registrar's screens, exactly, under the given id. */
  function ToLocalPlugin(reg: Registrar, pluginId: string): (p: LoadedPlugin)
    ensures p.pluginId == pluginId
    ensures p.screens.Keys == reg.screens.Keys
    ensures forall n :: n in p.screens ==> p.screens[n] == reg.screens[n]
  {
    LoadedPlugin(pluginId, reg.screens)
  }

  /** One `register_screen` call made by a plugin's `register` entry point. */
  datatype Registration = Registration(name: string, options: ScreenOptions, factory: ScreenFactory)

  /** `PluginDeclaration` as `load_from_path` reads it: the versions the
      plugin was built with, its id, and the registrations its `register`
      entry point performs, in order. */
  datatype PluginDeclaration = PluginDeclaration(
    rustcVersion: string, coreVersion: string, pluginId: string, registrations: seq<Registration>)

  /** Running the registrations one after another against a registrar. */
  function RunRegister(reg: Registrar, regs: seq<Registration>): Registrar
    decreases |regs|
  {
    if |regs| == 0 then reg
    else
      var last := regs[|regs| - 1];
      RegisterScreen(RunRegister(reg, regs[..|regs| - 1]), last.name, last.options, last.factory).value
  }

  /** The names a sequence of registrations uses. */
  function RegisteredNames(regs: seq<Registration>): set<string>
  {
    set i | 0 <= i < |regs| :: regs[i].name
  }

  /** The factory of the last registration of `name`, if any: the one that
      a later `insert` leaves in place. */
  function LastFactory(regs: seq<Registration>, name: string): (r: Option<ScreenFactory>)
    ensures r.None? <==> name !in RegisteredNames(regs)
    decreases |regs|
  {
    if |regs| == 0 then None
    else if regs[|regs| - 1].name == name then Some(regs[|regs| - 1].factory)
    else
      var r := LastFactory(regs[..|regs| - 1], name);
      assert RegisteredNames(regs) == RegisteredNames(regs[..|regs| - 1]) + {regs[|regs| - 1].name};
      r
  }

  /** After the registrations the registrar holds, for each name, the
      factory of its last registration, or what it held before when the
      name was not registered. */
  lemma {:induction false} RunRegisterLastWins(reg: Registrar, regs: seq<Registration>, name: string)
    ensures var after := RunRegister(reg, regs).screens;
            match LastFactory(regs, name)
            case Some(f) => name in after && after[name] == f
            case None => (name in after <==> name in reg.screens) && (name in reg.screens ==> after[name] == reg.screens[name])
    decreases |regs|
  {
    if |regs| > 0 {
      RunRegisterLastWins(reg, regs[..|regs| - 1], name);
    }
  }

  /** The registered names of a registrar that started empty are exactly the
      names the registrations used. */
  lemma RunRegisterNames(regs: seq<Registration>)
    ensures RunRegister(EmptyRegistrar, regs).screens.Keys == RegisteredNames(regs)
  {
    forall name | true
      ensures name in RunRegister(EmptyRegistrar, regs).screens <==> name in RegisteredNames(regs)
    {
      RunRegisterLastWins(EmptyRegistrar, regs, name);
    }
  }

  /** The versions of the host, `RUSTC_VERSION` and `CORE_VERSION`. */
  datatype HostVersions = HostVersions(rustcVersion: string, coreVersion: string)

  /** `PluginRegistry`: the loaded plugins by id. */
  datatype Registry = Registry(plugins: map<string, LoadedPlugin>)

  const EmptyRegistry := Registry(map[])

  datatype LoadError = VersionMismatch

  /** The registry after a load, with the load's status. */
  datatype Loaded = Loaded(registry: Registry, status: Result<(), LoadError>)

  /** The plugin a successful load files under the declaration's id. */
  function LoadedFrom(decl: PluginDeclaration): (p: LoadedPlugin)
    ensures p.pluginId == decl.pluginId
    ensures p.screens.Keys == RegisteredNames(decl.registrations)
  {
    RunRegisterNames(decl.registrations);
    ToLocalPlugin(RunRegister(EmptyRegistrar, decl.registrations), decl.pluginId)
  }

  /** `load_from_path` once the library is open: a plugin built with another
      compiler or core version is refused and the registry is left as it
      was; otherwise the plugin's screens are registered afresh and the
      plugin replaces any earlier one with the same id, and no other entry
      changes. */
  function LoadFromPath(registry: Registry, host: HostVersions, decl: PluginDeclaration): (r: Loaded)
    ensures r.status.Err? <==> decl.rustcVersion != host.rustcVersion || decl.coreVersion != host.coreVersion
    ensures r.status.Err? ==> r.registry == registry
    ensures r.status.Ok? ==>
              && r.registry.plugins.Keys == registry.plugins.Keys + {decl.pluginId}
              && r.registry.plugins[decl.pluginId].pluginId == decl.pluginId
              && r.registry.plugins[decl.pluginId].screens.Keys == RegisteredNames(decl.registrations)
              && (forall id :: id in registry.plugins && id != decl.pluginId ==> r.registry.plugins[id] == registry.plugins[id])
  {
    if decl.rustcVersion != host.rustcVersion || decl.coreVersion != host.coreVersion then
      Loaded(registry, Err(VersionMismatch))
    else
      Loaded(Registry(registry.plugins[decl.pluginId := LoadedFrom(decl)]), Ok(()))
  }

  /** After a successful load, each screen name of the plugin is bound to the
      factory of that name's last registration. */
  lemma LoadedScreens(registry: Registry, host: HostVersions, decl: PluginDeclaration, name: string)
    requires LoadFromPath(registry, host, decl).status.Ok?
    ensures var screens := LoadFromPath(registry, host, decl).registry.plugins[decl.pluginId].screens;
            match LastFactory(decl.registrations, name)
            case Some(f) => name in screens && screens[name] == f
            case None => name !in screens
  {
    RunRegisterLastWins(EmptyRegistrar, decl.registrations, name);
  }
}
