/** `create` of src/mcctl/common.py: make the instance directory, fetch the server jar into it, let
    the server run once, ask for the EULA and then either configure the instance or remove it
    again. What the server writes on its first start (`eula.txt`, a fresh `server.properties`, ...)
    is given as `firstRun`, file name to content. */
module Common {
  import opened Wrappers
  import opened Host
  import Config
  import Web
  import LegacyWeb
  import Service
  import Storage

  /** `getHomePath() / "instances" / instance`. */
  function InstanceDir(home: Path, instance: string): (r: Path)
    ensures |r| == |home| + 2 && Under(r, home)
  {
    home + ["instances", instance]
  }

  /** The entry `name` of directory `dir`. */
  function Child(dir: Path, name: string): (r: Path)
    ensures |r| == |dir| + 1 && Under(r, dir) && r[|dir|] == name
    ensures |dir| > 0 ==> Parent(r) == dir
  {
    assert (dir + [name])[..|dir|] == dir;
    dir + [name]
  }

  /** Two entries of one directory with different names are different paths. */
  lemma ChildrenDiffer(dir: Path, a: string, b: string)
    requires a != b
    ensures Child(dir, a) != Child(dir, b)
  {
    assert Child(dir, a)[|dir|] != Child(dir, b)[|dir|];
  }

  /** The effect of the server's first start in `dir` (what `preStart` waits for): the files it
      writes there. */
  method FirstStart(fs: FileSystem, dir: Path, written: map<string, string>)
    modifies fs
    ensures fs.dirs == old(fs.dirs) && fs.modes == old(fs.modes)
    ensures forall n :: n in written ==> Child(dir, n) in fs.files && fs.files[Child(dir, n)] == written[n]
    ensures forall p :: p in old(fs.files) ==> p in fs.files
    ensures forall p :: p in fs.files && (|p| != |dir| + 1 || !Under(p, dir) || p[|dir|] !in written) ==>
              p in old(fs.files) && fs.files[p] == old(fs.files)[p]
  {
    var made := map n | n in written :: Child(dir, n) := written[n];
    forall p | p in made ensures |p| == |dir| + 1 && Under(p, dir) && p[|dir|] in written {
      var n :| n in written && p == Child(dir, n);
    }
    fs.files := fs.files + made;
  }

  /** What the file `name` of `dir` holds once the server has started for the first time, as
      `touch` and a read see it: what the first start wrote, or else what the file held before. */
  function Seeded(files: map<Path, string>, dir: Path, firstRun: map<string, string>, name: string): string {
    if name in firstRun then firstRun[name] else TextOf(files, Child(dir, name))
  }

  /** An instance file other than `server.jar` lies neither in the jar cache nor under the jar. */
  lemma OutsideJar(home: Path, instance: string, name: string)
    requires name != "server.jar"
    ensures !Under(Child(InstanceDir(home, instance), name), home + ["jars"])
    ensures !Under(Child(InstanceDir(home, instance), name), Child(InstanceDir(home, instance), "server.jar"))
  {
    var p := Child(InstanceDir(home, instance), name);
    assert p[|home|] == "instances";
    ChildrenDiffer(InstanceDir(home, instance), name, "server.jar");
  }

  /** Fetching the jar leaves what the first start will find in the instance's other files. */
  lemma SeededKept(before: map<Path, string>, after: map<Path, string>, home: Path, instance: string,
                   firstRun: map<string, string>, name: string)
    requires name != "server.jar"
    requires forall p :: !Under(p, home + ["jars"]) && !Under(p, Child(InstanceDir(home, instance), "server.jar")) ==>
      TextOf(after, p) == TextOf(before, p)
    ensures Seeded(after, InstanceDir(home, instance), firstRun, name) == Seeded(before, InstanceDir(home, instance), firstRun, name)
  {
    OutsideJar(home, instance, name);
  }

  /** `setProperties(path, props)` as `create` relies on it: on success the file holds what
      merging `props` into its old content gives (nothing, for a new file), and no other file
      changes. */
  method Apply(fs: FileSystem, path: Path, props: Config.Dict) returns (r: Result<()>)
    requires Config.DistinctKeys(props)
    modifies fs
    ensures fs.dirs == old(fs.dirs) && fs.modes == old(fs.modes)
    ensures r.Ok? ==> path in fs.files && Config.Rewrite(TextOf(old(fs.files), path), props) == Ok(fs.files[path])
    ensures forall p :: p in old(fs.files) ==> p in fs.files
    ensures forall p :: p in fs.files && p != path ==> p in old(fs.files) && fs.files[p] == old(fs.files)[p]
  {
    r := Config.SetProperties(fs, path, props);
  }

  /** The accepted branch of `create`: `server.properties` takes the given `KEY=VALUE` lines and
      `jvm-env` the memory setting, each only when given. The first failure ends it. */
  method Configure(fs: FileSystem, dir: Path, memory: Option<string>, properties: Option<seq<string>>)
      returns (r: Result<()>)
    modifies fs
    ensures fs.dirs == old(fs.dirs) && fs.modes == old(fs.modes)
    ensures memory.None? && properties.None? ==> r == Ok(()) && fs.files == old(fs.files)
    ensures r.Ok? && properties.Some? ==>
      && Config.Parse(properties.value).Ok?
      && Child(dir, "server.properties") in fs.files
      && Config.Rewrite(TextOf(old(fs.files), Child(dir, "server.properties")), Config.Parse(properties.value).value)
         == Ok(fs.files[Child(dir, "server.properties")])
    ensures r.Ok? && memory.Some? ==>
      && Child(dir, "jvm-env") in fs.files
      && Config.Rewrite(TextOf(old(fs.files), Child(dir, "jvm-env")), [("MEM", memory.value)]) == Ok(fs.files[Child(dir, "jvm-env")])
    ensures forall p :: p in old(fs.files) ==> p in fs.files
    ensures forall p :: p in fs.files && p != Child(dir, "server.properties") && p != Child(dir, "jvm-env") ==>
              p in old(fs.files) && fs.files[p] == old(fs.files)[p]
  {
    var propsPath := Child(dir, "server.properties");
    var envPath := Child(dir, "jvm-env");
    ChildrenDiffer(dir, "server.properties", "jvm-env");
    r := Ok(());
    if properties.Some? {
      var dict := Config.PropertiesToDict(properties.value);
      if dict.Err? {
        return Err(dict.error);
      }
      Config.ParseFromDistinct([], properties.value);
      r := Apply(fs, propsPath, dict.value);
      if r.Err? {
        return;
      }
    }
    if memory.Some? {
      r := Apply(fs, envPath, [("MEM", memory.value)]);
    }
  }

  /** A step of `create`, logged once it has completed. */
  datatype Step = MakeDir | PullJar | CopyJar | StartOnce | AskEula | ConfigureInstance | RemoveInstance

  /** The steps of `create` in the order it takes them; the last one depends on the EULA answer. */
  function Plan(accepted: bool): seq<Step> {
    [MakeDir, PullJar, CopyJar, StartOnce, AskEula, if accepted then ConfigureInstance else RemoveInstance]
  }

  /** A prefix of the first three steps is a prefix of the plan. */
  lemma PlanFirst(done: seq<Step>)
    requires |done| <= 3 && done == [MakeDir, PullJar, CopyJar][..|done|]
    ensures done == Plan(false)[..|done|]
  {
    assert Plan(false)[..|done|] == Plan(false)[..3][..|done|];
  }

  /** The first three steps followed by a prefix of the last three make a prefix of the plan. */
  lemma PlanLater(done: seq<Step>, later: seq<Step>, accepted: bool)
    requires done == [MakeDir, PullJar, CopyJar]
    requires |later| <= 3 && later == [StartOnce, AskEula, if accepted then ConfigureInstance else RemoveInstance][..|later|]
    ensures done + later == Plan(accepted)[..|done + later|]
  {
    assert Plan(accepted) == done + [StartOnce, AskEula, if accepted then ConfigureInstance else RemoveInstance];
  }

  /** `web.pull(source)` as `create` relies on it: directories are only added, and no file outside
      the jar cache changes; a failed pull changes no file at all. */
  method CachedPull(fs: FileSystem, home: Path, source: string, remote: Web.Remote) returns (r: Result<Path>)
    modifies fs
    ensures old(fs.dirs) <= fs.dirs
    ensures SameOutside(old(fs.files), fs.files, home + ["jars"])
    ensures r.Err? ==> fs.files == old(fs.files)
  {
    r := LegacyWeb.Pull(fs, home, source, false, "", remote);
  }

  /** Writing the jar somewhere under `jarDest` after a pull that changed only the cache leaves
      every file outside both as it was. */
  lemma CopyOutside(before: map<Path, string>, pulled: map<Path, string>, after: map<Path, string>,
                    cache: Path, jarDest: Path, target: Path)
    requires SameOutside(before, pulled, cache)
    requires target == jarDest || (|target| == |jarDest| + 1 && target[..|jarDest|] == jarDest)
    requires target in after && after == pulled[target := after[target]]
    ensures forall p :: !Under(p, cache) && !Under(p, jarDest) ==> TextOf(after, p) == TextOf(before, p)
  {
    assert Under(target, jarDest);
  }

  /** The first steps of `create` on a fresh instance directory `dir`: `createDirs(dir)`, the
      jar pulled by its type id and copied in as `server.jar`. `done` lists the steps that
      completed; the first failure ends it. Until the copy, no file outside the jar cache changes. */
  method Fetch(fs: FileSystem, home: Path, dir: Path, source: string, remote: Web.Remote)
      returns (r: Result<()>, done: seq<Step>)
    requires |dir| > 0 && dir !in fs.dirs && dir !in fs.files
    modifies fs
    ensures |done| <= 3 && done == [MakeDir, PullJar, CopyJar][..|done|]
    ensures r.Ok? <==> |done| == 3
    ensures old(fs.dirs) <= fs.dirs
    ensures |done| == 0 ==> unchanged(fs)
    ensures |done| >= 1 ==> dir in fs.dirs
    ensures |done| < 3 ==> SameOutside(old(fs.files), fs.files, home + ["jars"])
    ensures |done| == 3 ==> fs.Exists(Child(dir, "server.jar"))
    ensures |done| == 3 ==> forall p :: !Under(p, home + ["jars"]) && !Under(p, Child(dir, "server.jar")) ==>
      TextOf(fs.files, p) == TextOf(old(fs.files), p)
  {
    ghost var steps := [MakeDir, PullJar, CopyJar];
    done := [];
    var made := fs.CreateDirs(dir);
    if made.Err? {
      return Err(made.error), done;
    }
    assert dir[..|dir|] == dir;
    assert dir in fs.dirs;
    done := [MakeDir];
    var jar := CachedPull(fs, home, source, remote);
    if jar.Err? {
      assert done == steps[..1];
      return Err(jar.error), done;
    }
    done := [MakeDir, PullJar];
    assert done == steps[..2];
    var jarDest := Child(dir, "server.jar");
    ghost var pulled := fs.files;
    var copied := fs.Copy(jar.value, jarDest);
    if copied.Err? {
      return Err(copied.error), done;
    }
    assert fs.Exists(jarDest);
    CopyOutside(old(fs.files), pulled, fs.files, home + ["jars"], jarDest, copied.value);
    done := [MakeDir, PullJar, CopyJar];
    r := Ok(());
  }

  /** `create(instance, source, memory, properties)`. An existing instance is an
      `AssertionError`. Otherwise the directory is made, the jar pulled (by type id, not as a
      literal URL) and copied in as `server.jar`, and the server started once; then the EULA is
      asked for. Accepted, the instance is configured; declined, or with no EULA setting in
      `eula.txt` (`None` is false in Python), the instance is removed again as `remove(instance,
      confirm=False)` does. `eula` is the EULA dialog's answer, `done` the steps that completed,
      in order. Failures propagate with nothing undone: what each failing step leaves behind is
      stated by the length of `done`. */
  method Create(fs: FileSystem, sys: Service.Systemd, unitPrefix: string, home: Path, instance: string,
                source: string, memory: Option<string>, properties: Option<seq<string>>,
                remote: Web.Remote, firstRun: map<string, string>, answers: seq<string>)
      returns (r: Result<()>, eula: Option<bool>, done: seq<Step>)
    modifies fs, sys
    ensures sys.active == old(sys.active) && sys.enabled == old(sys.enabled)
    ensures |done| <= 6 && done == Plan(eula == Some(true))[..|done|]
    ensures r.Ok? <==> |done| == 6
    ensures old(fs.Exists(InstanceDir(home, instance))) ==>
      r == Err(AssertionError) && eula == None && done == [] && unchanged(fs)
    ensures |done| == 0 ==> unchanged(fs)
    ensures 1 <= |done| && RemoveInstance !in done ==> InstanceDir(home, instance) in fs.dirs
    ensures 1 <= |done| < 3 ==> SameOutside(old(fs.files), fs.files, home + ["jars"])
    ensures 3 <= |done| && RemoveInstance !in done ==> fs.Exists(Child(InstanceDir(home, instance), "server.jar"))
    ensures 4 <= |done| && RemoveInstance !in done ==>
      forall n :: n in firstRun ==> Child(InstanceDir(home, instance), n) in fs.files
    ensures |done| == 4 ==>
      forall n :: n in firstRun ==> fs.files[Child(InstanceDir(home, instance), n)] == firstRun[n]
    ensures r.Ok? ==> !old(fs.Exists(InstanceDir(home, instance)))
    ensures r.Ok? && eula != Some(true) ==> fs.Absent(InstanceDir(home, instance))
    ensures r.Ok? && eula == Some(true) ==>
      && InstanceDir(home, instance) in fs.dirs
      && fs.Exists(Child(InstanceDir(home, instance), "server.jar"))
    ensures r.Ok? && eula == Some(true) && properties.Some? ==>
      var path := Child(InstanceDir(home, instance), "server.properties");
      && Config.Parse(properties.value).Ok?
      && path in fs.files
      && Config.Rewrite(Seeded(old(fs.files), InstanceDir(home, instance), firstRun, "server.properties"),
                        Config.Parse(properties.value).value) == Ok(fs.files[path])
    ensures r.Ok? && eula == Some(true) && memory.Some? ==>
      var path := Child(InstanceDir(home, instance), "jvm-env");
      && path in fs.files
      && Config.Rewrite(Seeded(old(fs.files), InstanceDir(home, instance), firstRun, "jvm-env"), [("MEM", memory.value)])
         == Ok(fs.files[path])
  {
    var dir := InstanceDir(home, instance);
    eula := None;
    done := [];
    if fs.Exists(dir) {
      return Err(AssertionError), None, done;
    }
    r, done := Fetch(fs, home, dir, source, remote);
    if r.Err? {
      PlanFirst(done);
      return r, None, done;
    }
    SeededKept(old(fs.files), fs.files, home, instance, firstRun, "server.properties");
    SeededKept(old(fs.files), fs.files, home, instance, firstRun, "jvm-env");
    var later;
    r, eula, later := Settle(fs, sys, unitPrefix, home, instance, memory, properties, firstRun, answers);
    PlanLater(done, later, eula == Some(true));
    done := done + later;
  }

  /** The steps of `create` after the jar is in place: the first start, the EULA prompt, and then
      configuring or removing the instance. `later` lists the steps that completed. */
  method Settle(fs: FileSystem, sys: Service.Systemd, unitPrefix: string, home: Path, instance: string,
                memory: Option<string>, properties: Option<seq<string>>,
                firstRun: map<string, string>, answers: seq<string>)
      returns (r: Result<()>, eula: Option<bool>, later: seq<Step>)
    modifies fs, sys
    ensures sys.active == old(sys.active) && sys.enabled == old(sys.enabled)
    ensures 1 <= |later| <= 3
    ensures later == [StartOnce, AskEula, if eula == Some(true) then ConfigureInstance else RemoveInstance][..|later|]
    ensures r.Ok? <==> |later| == 3
    ensures RemoveInstance !in later ==> fs.dirs == old(fs.dirs)
    ensures RemoveInstance !in later ==> forall p :: p in old(fs.files) ==> p in fs.files
    ensures RemoveInstance !in later ==>
      forall n :: n in firstRun ==> Child(InstanceDir(home, instance), n) in fs.files
    ensures |later| == 1 ==>
      forall n :: n in firstRun ==> fs.files[Child(InstanceDir(home, instance), n)] == firstRun[n]
    ensures r.Ok? && eula != Some(true) ==> fs.Absent(InstanceDir(home, instance))
    ensures r.Ok? && eula == Some(true) && properties.Some? ==>
      var path := Child(InstanceDir(home, instance), "server.properties");
      && Config.Parse(properties.value).Ok?
      && path in fs.files
      && Config.Rewrite(Seeded(old(fs.files), InstanceDir(home, instance), firstRun, "server.properties"),
                        Config.Parse(properties.value).value) == Ok(fs.files[path])
    ensures r.Ok? && eula == Some(true) && memory.Some? ==>
      var path := Child(InstanceDir(home, instance), "jvm-env");
      && path in fs.files
      && Config.Rewrite(Seeded(old(fs.files), InstanceDir(home, instance), firstRun, "jvm-env"), [("MEM", memory.value)])
         == Ok(fs.files[path])
  {
    var dir := InstanceDir(home, instance);
    var accepted := StartAndAsk(fs, dir, firstRun, answers);
    if accepted.Err? {
      later := [StartOnce];
      assert later == [StartOnce, AskEula, RemoveInstance][..1];
      return Err(accepted.error), None, later;
    }
    eula := accepted.value;
    var last := if eula == Some(true) then ConfigureInstance else RemoveInstance;
    r := Finish(fs, sys, unitPrefix, home, instance, memory, properties, eula == Some(true));
    later := if r.Ok? then [StartOnce, AskEula, last] else [StartOnce, AskEula];
    assert later == [StartOnce, AskEula, last][..|later|];
  }

  /** The first start of the server, which writes `firstRun` into the instance directory, and the
      EULA dialog after it. Neither takes a file or a directory away, and a failed dialog changes
      nothing the first start wrote. */
  method StartAndAsk(fs: FileSystem, dir: Path, firstRun: map<string, string>, answers: seq<string>)
      returns (accepted: Result<Option<bool>>)
    modifies fs
    ensures fs.dirs == old(fs.dirs)
    ensures forall p :: p in old(fs.files) ==> p in fs.files
    ensures forall n :: n in firstRun ==> Child(dir, n) in fs.files
    ensures accepted.Err? ==> forall n :: n in firstRun ==> fs.files[Child(dir, n)] == firstRun[n]
    ensures forall n :: n != "eula.txt" ==> TextOf(fs.files, Child(dir, n)) == Seeded(old(fs.files), dir, firstRun, n)
  {
    FirstStart(fs, dir, firstRun);
    accepted := Config.AcceptEula(fs, dir, answers);
  }

  /** The last step of `create`: configure the accepted instance, or remove the declined one with
      `remove(instance, confirm=False)`. Only a completed removal takes anything away. */
  method Finish(fs: FileSystem, sys: Service.Systemd, unitPrefix: string, home: Path, instance: string,
                memory: Option<string>, properties: Option<seq<string>>, accepted: bool)
      returns (r: Result<()>)
    modifies fs, sys
    ensures sys.active == old(sys.active) && sys.enabled == old(sys.enabled)
    ensures accepted || r.Err? ==> fs.dirs == old(fs.dirs) && forall p :: p in old(fs.files) ==> p in fs.files
    ensures !accepted && r.Err? ==> fs.files == old(fs.files)
    ensures !accepted && r.Ok? ==> fs.Absent(InstanceDir(home, instance))
    ensures accepted && r.Ok? && properties.Some? ==>
      var path := Child(InstanceDir(home, instance), "server.properties");
      && Config.Parse(properties.value).Ok?
      && path in fs.files
      && Config.Rewrite(TextOf(old(fs.files), path), Config.Parse(properties.value).value) == Ok(fs.files[path])
    ensures accepted && r.Ok? && memory.Some? ==>
      var path := Child(InstanceDir(home, instance), "jvm-env");
      && path in fs.files
      && Config.Rewrite(TextOf(old(fs.files), path), [("MEM", memory.value)]) == Ok(fs.files[path])
  {
    var dir := InstanceDir(home, instance);
    if accepted {
      r := Configure(fs, dir, memory, properties);
      if r.Err? {
        return;
      }
    } else {
      r := Storage.Remove(fs, sys, unitPrefix, home, instance, false, []);
    }
  }

  /** A memory setting written by `create` reads back from `jvm-env`: whatever the file held
      before, its `MEM` entry is now the given value (one without a line break and without
      trailing white space, which reading would strip). */
  lemma MemoryReadsBack(before: string, memory: string, after: string)
    requires Config.CleanValue(memory)
    requires Config.Rewrite(before, [("MEM", memory)]) == Ok(after)
    ensures Config.ParseContent(after).Ok?
    ensures Config.Get(Config.ParseContent(after).value, "MEM") == Some(memory)
  {
    var props: Config.Dict := [("MEM", memory)];
    var d := Config.ParseContent(before).value;
    Config.UpdateGet(d, props, "MEM");
    var u := Config.Update(d, props);
    assert after == Config.Serialize(u);
    assert |Config.EntryText(u[0])| > 0;
    assert Config.Clean(props) by {
      assert "MEM"[0] != '#';
    }
    Config.RewriteMerge(before, props, after);
  }
}
