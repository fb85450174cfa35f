/** The older plugin manager of src/mcctl/package.py. It works like the one in src/mcctl/plugin.py
    and shares its selection and removal steps; it differs in three places: `install` accepts an
    empty list of sources and has no automatic upgrade, and `uninstall` restarts the server once,
    before the files are removed. Its `auto_uninstall` is the one in plugin.py. */
module Package {
  import opened Wrappers
  import opened Plugin

  /** `install(instance, sources, restart)`: check the instance and its plugins directory, fetch
      the URLs, install every file, and restart the server when asked. With no sources the loop
      installs nothing and the call succeeds. The results are the set installed and the order of
      the installs. */
  method Install(d: PluginDir, sources: seq<string>, restart: bool,
                 isUrl: string -> bool, download: string -> string,
                 archiveNames: string -> set<string>, bareName: string -> string)
    returns (r: Result<set<string>>, installs: seq<string>)
    requires forall u :: !isUrl(download(u))
    modifies d
    ensures !old(d.instanceIsDir) || !old(d.pluginsIsDir) ==>
      r == Err(FileNotFoundError) && d.names == old(d.names) && d.events == old(d.events)
    ensures r.Ok? <==> (old(d.instanceIsDir) && old(d.pluginsIsDir) &&
                        forall f :: f in Localised(Distinct(sources), isUrl, download) ==> Installable(f))
    ensures r.Err? && old(d.instanceIsDir) && old(d.pluginsIsDir) ==> r.error == ValueError
    ensures old(d.instanceIsDir) && old(d.pluginsIsDir) && |sources| == 0 ==> r == Ok({})
    ensures r.Ok? ==> r.value == Produced(Localised(Distinct(sources), isUrl, download), archiveNames, bareName)
    ensures r.Ok? ==> d.names == old(d.names) + r.value
    ensures r.Err? ==> old(d.names) <= d.names <= old(d.names) + Produced(Localised(Distinct(sources), isUrl, download), archiveNames, bareName)
    ensures r.Ok? ==> EachOnce(installs, Localised(Distinct(sources), isUrl, download))
    ensures r.Ok? ==> d.events == old(d.events) + Events(installs, false) + (if restart then [StatusChange("restart")] else [])
    ensures d.instanceIsDir == old(d.instanceIsDir) && d.pluginsIsDir == old(d.pluginsIsDir)
    ensures d.pluginsExists == old(d.pluginsExists)
  {
    if !d.instanceIsDir || !d.pluginsIsDir {
      return Err(FileNotFoundError), [];
    }
    var files := Localise(sources, isUrl, download);
    if |sources| == 0 {
      assert files == {};
      assert Produced(files, archiveNames, bareName) == {};
    }
    r, installs := InstallFiles(d, files, restart, archiveNames, bareName);
  }

  /** `uninstall(instance, plugins, restart, force)`: remove the plugins the search terms select
      (only the first term counts, as in plugin.py) once the user agrees; with `restart` the
      server is restarted once, before the files go. The results are the set removed and the
      order of the removals. */
  method Uninstall(d: PluginDir, terms: seq<string>, restart: bool, force: bool, confirmed: bool)
    returns (r: Result<set<string>>, order: seq<string>)
    modifies d
    ensures r.Err? <==> !old(d.instanceIsDir) || !old(d.pluginsIsDir)
    ensures r.Err? ==> r.error == FileNotFoundError
    ensures r.Ok? ==> r.value == if Resolved(terms, old(d.names)) != {} && (force || confirmed)
                                 then Resolved(terms, old(d.names)) else {}
    ensures d.names == old(d.names) - (if r.Ok? then r.value else {})
    ensures EachOnce(order, if r.Ok? then r.value else {})
    ensures d.events == old(d.events) +
      if r.Ok? && r.value != {} then (if restart then [StatusChange("restart")] else []) + Events(order, true) else []
    ensures d.instanceIsDir == old(d.instanceIsDir) && d.pluginsIsDir == old(d.pluginsIsDir)
    ensures d.pluginsExists == old(d.pluginsExists)
  {
    if !d.instanceIsDir || !d.pluginsIsDir {
      assert d.events == old(d.events) + [];
      return Err(FileNotFoundError), [];
    }
    var resolved := ResolveNames(terms, d.names);
    var removed;
    var before := if restart then [StatusChange("restart")] else [];
    removed, order := RemoveSelected(d, resolved, force || confirmed, before, []);
    assert before + Events(order, true) + [] == before + Events(order, true);
    r := Ok(removed);
  }
}
