/** Instance and jar-cache storage of src/mcctl/storage.py: walking a directory in sorted order,
    selecting relative paths, listing and removing cached jars, removing an instance, reading its
    logs and choosing what an export archives. The operator's home directory is a parameter (the
    password database is outside the model). */
module Storage {
  import opened Wrappers
  import opened Text
  import opened Host
  import opened Order
  import Config
  import Service
  import Web

  /** What `base.rglob("*")` yields: every file and directory strictly below `base`. */
  function Descendants(files: map<Path, string>, dirs: set<Path>, base: Path): (r: set<Path>)
    ensures forall p :: p in r <==> (p in files || p in dirs) && Under(p, base) && |p| > |base|
  {
    (set p | p in files && Under(p, base) && |p| > |base|) + (set p | p in dirs && Under(p, base) && |p| > |base|)
  }

  /** `get_child_paths`: `sorted(path.rglob("*"))`. */
  method ChildPaths(fs: FileSystem, base: Path) returns (r: seq<Path>)
    ensures r == SortedOf(Descendants(fs.files, fs.dirs, base))
    ensures SortedPaths(r)
    ensures forall p :: p in r <==> (p in fs.files || p in fs.dirs) && Under(p, base) && |p| > |base|
  {
    r := SortPaths(Descendants(fs.files, fs.dirs, base));
  }

  /** `p.parts[n:]`. */
  function Drop(p: Path, n: nat): Path {
    if n <= |p| then p[n..] else []
  }

  /** Python's `s[idx]`, negative indices counting from the end; `None` where it raises `IndexError`. */
  function PyIndex<T>(s: seq<T>, idx: int): (r: Option<T>)
    ensures r.Some? <==> -|s| <= idx < |s|
    ensures r.Some? ==> r.value == s[if idx < 0 then |s| + idx else idx]
  {
    if 0 <= idx < |s| then Some(s[idx])
    else if -|s| <= idx < 0 then Some(s[|s| + idx])
    else None
  }

  /** The test `filter_str in rel_path.parts[filter_idx]` passes. */
  predicate Kept(p: Path, n: nat, filter: string, idx: int) {
    var part := PyIndex(Drop(p, n), idx);
    part.Some? && Contains(part.value, filter)
  }

  /** The list `get_relative_paths` builds from the walk `ps` of a directory with `n` parts. */
  function Select(ps: seq<Path>, n: nat, filter: string, idx: int): Result<seq<Path>>
    decreases |ps|
  {
    if |ps| == 0 then Ok([])
    else
      var init :- Select(ps[..|ps| - 1], n, filter, idx);
      var rel := Drop(ps[|ps| - 1], n);
      match PyIndex(rel, idx)
      case None => Err(IndexError)
      case Some(part) => Ok(if Contains(part, filter) then init + [rel] else init)
  }

  /** The walked path `p` has no part at `idx` once its first `n` parts are dropped. */
  predicate Fails(p: Path, n: nat, idx: int) {
    PyIndex(Drop(p, n), idx).None?
  }

  predicate AnyFails(ps: seq<Path>, n: nat, idx: int) {
    exists i :: 0 <= i < |ps| && Fails(ps[i], n, idx)
  }

  /** The selection fails, with `IndexError`, exactly when some walked path has no part at `idx`. */
  lemma {:induction false} SelectErr(ps: seq<Path>, n: nat, filter: string, idx: int)
    ensures Select(ps, n, filter, idx).Err? <==> AnyFails(ps, n, idx)
    ensures Select(ps, n, filter, idx).Err? ==> Select(ps, n, filter, idx).error == IndexError
    decreases |ps|
  {
    if |ps| > 0 {
      var init := ps[..|ps| - 1];
      SelectErr(init, n, filter, idx);
      AnyFailsSnoc(ps, n, idx);
    }
  }

  lemma AnyFailsSnoc(ps: seq<Path>, n: nat, idx: int)
    requires |ps| > 0
    ensures AnyFails(ps, n, idx) <==> AnyFails(ps[..|ps| - 1], n, idx) || Fails(ps[|ps| - 1], n, idx)
  {
    var init := ps[..|ps| - 1];
    if AnyFails(init, n, idx) {
      var i :| 0 <= i < |init| && Fails(init[i], n, idx);
      assert ps[i] == init[i];
    }
    if AnyFails(ps, n, idx) {
      var i :| 0 <= i < |ps| && Fails(ps[i], n, idx);
      if i < |init| {
        assert init[i] == ps[i];
      }
    }
  }

  /** `q` is a walked path of `ps` without its first `n` parts that passes the filter. */
  predicate Selected(q: Path, ps: seq<Path>, n: nat, filter: string, idx: int) {
    exists i :: 0 <= i < |ps| && q == Drop(ps[i], n) && Kept(ps[i], n, filter, idx)
  }

  /** A selected path is a walked path without its first `n` parts that passes the filter, and
      every such path is selected. */
  lemma {:induction false} SelectMembers(ps: seq<Path>, n: nat, filter: string, idx: int)
    requires Select(ps, n, filter, idx).Ok?
    ensures forall q :: q in Select(ps, n, filter, idx).value <==> Selected(q, ps, n, filter, idx)
    decreases |ps|
  {
    if |ps| > 0 {
      var init := ps[..|ps| - 1];
      var last := ps[|ps| - 1];
      SelectMembers(init, n, filter, idx);
      var prev := Select(init, n, filter, idx).value;
      var r := Select(ps, n, filter, idx).value;
      assert r == if Kept(last, n, filter, idx) then prev + [Drop(last, n)] else prev;
      forall q ensures q in r <==> Selected(q, ps, n, filter, idx) {
        SelectedSnoc(q, ps, n, filter, idx);
      }
    }
  }

  lemma SelectedSnoc(q: Path, ps: seq<Path>, n: nat, filter: string, idx: int)
    requires |ps| > 0
    ensures var last := ps[|ps| - 1];
      Selected(q, ps, n, filter, idx) <==>
        Selected(q, ps[..|ps| - 1], n, filter, idx) || (q == Drop(last, n) && Kept(last, n, filter, idx))
  {
    if Selected(q, ps, n, filter, idx) {
      SelectedInit(q, ps, n, filter, idx);
    }
    if Selected(q, ps[..|ps| - 1], n, filter, idx) {
      SelectedExtend(q, ps, n, filter, idx);
    }
  }

  lemma SelectedInit(q: Path, ps: seq<Path>, n: nat, filter: string, idx: int)
    requires |ps| > 0 && Selected(q, ps, n, filter, idx)
    ensures Selected(q, ps[..|ps| - 1], n, filter, idx) || (q == Drop(ps[|ps| - 1], n) && Kept(ps[|ps| - 1], n, filter, idx))
  {
    var i :| 0 <= i < |ps| && q == Drop(ps[i], n) && Kept(ps[i], n, filter, idx);
    if i < |ps| - 1 {
      assert ps[..|ps| - 1][i] == ps[i];
    }
  }

  lemma SelectedExtend(q: Path, ps: seq<Path>, n: nat, filter: string, idx: int)
    requires |ps| > 0 && Selected(q, ps[..|ps| - 1], n, filter, idx)
    ensures Selected(q, ps, n, filter, idx)
  {
    var init := ps[..|ps| - 1];
    var i :| 0 <= i < |init| && q == Drop(init[i], n) && Kept(init[i], n, filter, idx);
    assert ps[i] == init[i];
  }

  /** Selecting from a walk in sorted order below `base` keeps the paths in sorted order. */
  lemma {:induction false} SelectSorted(ps: seq<Path>, base: Path, filter: string, idx: int)
    requires SortedPaths(ps)
    requires forall i :: 0 <= i < |ps| ==> Under(ps[i], base)
    requires Select(ps, |base|, filter, idx).Ok?
    ensures SortedPaths(Select(ps, |base|, filter, idx).value)
    decreases |ps|
  {
    if |ps| > 0 {
      var n := |base|;
      var init := ps[..|ps| - 1];
      var last := ps[|ps| - 1];
      SelectSorted(init, base, filter, idx);
      var prev := Select(init, n, filter, idx).value;
      var r := Select(ps, n, filter, idx).value;
      if r != prev {
        assert r == prev + [Drop(last, n)];
        SelectMembers(init, n, filter, idx);
        forall i, j | 0 <= i < j < |r| ensures PathLt(r[i], r[j]) {
          if j == |r| - 1 {
            assert r[i] in prev;
            var k :| 0 <= k < |init| && r[i] == Drop(init[k], n) && Kept(init[k], n, filter, idx);
            assert PathLt(ps[k], last);
            PathLtDropPrefix(ps[k], last, base);
          } else {
            assert r[i] == prev[i] && r[j] == prev[j];
          }
        }
      }
    }
  }

  /** Removing a common prefix keeps two paths in the same order. */
  lemma {:induction false} PathLtDropPrefix(a: Path, b: Path, base: Path)
    requires Under(a, base) && Under(b, base) && PathLt(a, b)
    ensures PathLt(a[|base|..], b[|base|..])
    decreases |base|
  {
    if |base| > 0 {
      assert a[0] == b[0] && a[0] == base[0];
      assert !StrLt(a[0], b[0]);
      assert a[1..] != b[1..];
      assert a[1..][..|base| - 1] == base[1..];
      assert b[1..][..|base| - 1] == base[1..];
      PathLtDropPrefix(a[1..], b[1..], base[1..]);
      assert a[1..][|base| - 1..] == a[|base|..];
      assert b[1..][|base| - 1..] == b[|base|..];
    }
  }

  /** `get_relative_paths`: the descendants of `base` in sorted order, relative to `base`, kept when
      their part at `idx` contains `filter`. */
  method RelativePaths(fs: FileSystem, base: Path, filter: string, idx: int) returns (r: Result<seq<Path>>)
    ensures r == Select(SortedOf(Descendants(fs.files, fs.dirs, base)), |base|, filter, idx)
    ensures r.Err? ==> r.error == IndexError
    ensures r.Ok? ==> SortedPaths(r.value)
    ensures r.Ok? ==> forall q :: q in r.value <==>
              exists p :: p in Descendants(fs.files, fs.dirs, base) && q == p[|base|..] && Kept(p, |base|, filter, idx)
  {
    var children := ChildPaths(fs, base);
    r := SelectLoop(children, |base|, filter, idx);
    SelectErr(children, |base|, filter, idx);
    if r.Ok? {
      SelectSorted(children, base, filter, idx);
      SelectDescendants(fs.files, fs.dirs, base, filter, idx);
    }
  }

  /** The loop of `get_relative_paths` over the walk `ps`. */
  method SelectLoop(ps: seq<Path>, n: nat, filter: string, idx: int) returns (r: Result<seq<Path>>)
    ensures r == Select(ps, n, filter, idx)
  {
    var acc := [];
    var i := 0;
    while i < |ps|
      invariant 0 <= i <= |ps|
      invariant Select(ps[..i], n, filter, idx) == Ok(acc)
    {
      var rel := Drop(ps[i], n);
      assert ps[..i + 1][..i] == ps[..i];
      var part := PyIndex(rel, idx);
      if part.None? {
        SelectErr(ps, n, filter, idx);
        return Err(IndexError);
      }
      if Contains(part.value, filter) {
        acc := acc + [rel];
      }
      i := i + 1;
    }
    assert ps[..i] == ps;
    r := Ok(acc);
  }

  /** The members of a selection from the walk of `base`, in terms of the descendants of `base`. */
  lemma SelectDescendants(files: map<Path, string>, dirs: set<Path>, base: Path, filter: string, idx: int)
    requires Select(SortedOf(Descendants(files, dirs, base)), |base|, filter, idx).Ok?
    ensures forall q :: q in Select(SortedOf(Descendants(files, dirs, base)), |base|, filter, idx).value <==>
              exists p :: p in Descendants(files, dirs, base) && q == p[|base|..] && Kept(p, |base|, filter, idx)
  {
    var below := Descendants(files, dirs, base);
    var children := SortedOf(below);
    var n := |base|;
    SelectMembers(children, n, filter, idx);
    forall q ensures Selected(q, children, n, filter, idx) <==> exists p :: p in below && q == p[n..] && Kept(p, n, filter, idx) {
      SelectedListed(q, children, below, n, filter, idx);
    }
  }

  /** Selection from a list of paths longer than `n` depends only on which paths it holds. */
  lemma SelectedListed(q: Path, ps: seq<Path>, s: set<Path>, n: nat, filter: string, idx: int)
    requires forall p :: p in ps <==> p in s
    requires forall p :: p in s ==> |p| > n
    ensures Selected(q, ps, n, filter, idx) <==> exists p :: p in s && q == p[n..] && Kept(p, n, filter, idx)
  {
    if Selected(q, ps, n, filter, idx) {
      var k :| 0 <= k < |ps| && q == Drop(ps[k], n) && Kept(ps[k], n, filter, idx);
      assert ps[k] in s;
    }
    if exists p :: p in s && q == p[n..] && Kept(p, n, filter, idx) {
      var p :| p in s && q == p[n..] && Kept(p, n, filter, idx);
      assert p in ps;
      var k :| 0 <= k < |ps| && ps[k] == p;
      assert q == Drop(ps[k], n);
    }
  }

  /** Every descendant has a last and a first relative part, so selecting by those never fails. */
  lemma EndPartsExist(files: map<Path, string>, dirs: set<Path>, base: Path, filter: string, idx: int)
    requires idx == 0 || idx == -1
    ensures Select(SortedOf(Descendants(files, dirs, base)), |base|, filter, idx).Ok?
  {
    var ps := SortedOf(Descendants(files, dirs, base));
    SelectErr(ps, |base|, filter, idx);
    forall i | 0 <= i < |ps| ensures PyIndex(Drop(ps[i], |base|), idx).Some? {
      assert ps[i] in Descendants(files, dirs, base);
    }
  }

  /** The type-tag printed for a cached jar: `str(jar).replace("/", ":").replace(".jar", "")`. */
  function JarTag(rel: Path): string {
    ReplaceAll(ReplaceChar(Join("/", rel), '/', ':'), ".jar", "")
  }

  /** The tags printed for the jars whose path contains `filter`, in order. */
  function Listing(jars: seq<Path>, filter: string): (r: seq<string>)
    ensures |r| <= |jars|
    ensures forall t :: t in r ==> exists i :: 0 <= i < |jars| && t == JarTag(jars[i]) && Contains(Join("/", jars[i]), filter)
    decreases |jars|
  {
    if |jars| == 0 then []
    else
      var init := Listing(jars[..|jars| - 1], filter);
      var last := jars[|jars| - 1];
      assert forall t :: t in init ==> exists i :: 0 <= i < |jars| && t == JarTag(jars[i]) && Contains(Join("/", jars[i]), filter) by {
        forall t | t in init ensures exists i :: 0 <= i < |jars| && t == JarTag(jars[i]) && Contains(Join("/", jars[i]), filter) {
          var i :| 0 <= i < |jars| - 1 && t == JarTag(jars[..|jars| - 1][i]) && Contains(Join("/", jars[..|jars| - 1][i]), filter);
          assert jars[..|jars| - 1][i] == jars[i];
        }
      }
      if Contains(Join("/", last), filter) then init + [JarTag(last)] else init
  }

  /** `get_jar_list`: the tags of the cached jars (paths below `jars` whose last part contains
      `.jar`) whose relative path contains `filter`, in sorted path order. */
  method JarList(fs: FileSystem, home: Path, filter: string) returns (r: seq<string>)
    ensures var sel := Select(SortedOf(Descendants(fs.files, fs.dirs, home + ["jars"])), |home| + 1, ".jar", -1);
      sel.Ok? && r == Listing(sel.value, filter)
  {
    EndPartsExist(fs.files, fs.dirs, home + ["jars"], ".jar", -1);
    var jars := RelativePaths(fs, home + ["jars"], ".jar", -1);
    var listed := jars.value;
    r := [];
    var i := 0;
    while i < |listed|
      invariant 0 <= i <= |listed|
      invariant r == Listing(listed[..i], filter)
    {
      assert listed[..i + 1][..i] == listed[..i];
      if Contains(Join("/", listed[i]), filter) {
        r := r + [JarTag(listed[i])];
      }
      i := i + 1;
    }
    assert listed[..i] == listed;
  }

  /** A jar cached under a tag that holds no `/` and no `.jar` is listed under that same tag. */
  lemma ListedTag(home: Path, tag: string)
    requires '/' !in tag && !Contains(tag, ".jar")
    ensures JarTag(Web.CachePath(home, tag)[|home| + 1..]) == tag
  {
    var s := ReplaceChar(tag, ':', '/');
    var t := s + ".jar";
    var rel := Web.CachePath(home, tag)[|home| + 1..];
    assert rel == Split(t, '/');
    JoinSplit(t, '/');
    ReplaceCharAppend(s, ".jar", '/', ':');
    assert ReplaceChar(".jar", '/', ':') == ".jar";
    ReplaceCharBack(tag, ':', '/');
    DropJarSuffix(tag);
  }

  /** The answer a `[y/n]` prompt settles on: typed answers until one is `y` or `n` in any case. */
  function YesNo(answers: seq<string>): Result<string> {
    Answer(answers, {"y", "n"})
  }

  /** `remove`: the instance directory must exist and its unit must be neither enabled nor active
      (`is_active` is asked only when the unit is not enabled); then, when `confirm`, the operator is
      asked, and the tree is removed only on an answer of exactly `y` — an upper-case `Y` ends the
      prompt but keeps the instance. `confirm == false` removes without asking. */
  method Remove(fs: FileSystem, sys: Service.Systemd, unitPrefix: string, home: Path, instance: string,
                confirm: bool, answers: seq<string>) returns (r: Result<()>)
    modifies fs, sys
    ensures sys.active == old(sys.active) && sys.enabled == old(sys.enabled)
    ensures fs.modes == old(fs.modes)
    ensures var del := home + ["instances", instance];
      var unit := unitPrefix + instance;
      var ans := if confirm then YesNo(answers) else Ok("y");
      if !old(fs.Exists(del)) || unit in old(sys.enabled) || unit in old(sys.active) then
        r == Err(AssertionError) && fs.files == old(fs.files) && fs.dirs == old(fs.dirs)
      else if ans.Err? then r == Err(EOFError) && fs.files == old(fs.files) && fs.dirs == old(fs.dirs)
      else if ans.value != "y" then r == Ok(()) && fs.files == old(fs.files) && fs.dirs == old(fs.dirs)
      else if del !in old(fs.dirs) then r == Err(NotADirectoryError) && fs.files == old(fs.files) && fs.dirs == old(fs.dirs)
      else
        && r == Ok(())
        && fs.files == (map q | q in old(fs.files) && !Under(q, del) :: old(fs.files)[q])
        && fs.dirs == (set q | q in old(fs.dirs) && !Under(q, del))
  {
    var del := home + ["instances", instance];
    if !fs.Exists(del) {
      return Err(AssertionError);
    }
    var enabled := Service.IsEnabled(sys, unitPrefix, instance);
    if enabled {
      return Err(AssertionError);
    }
    var active := Service.IsActive(sys, unitPrefix, instance);
    if active {
      return Err(AssertionError);
    }
    var ans := Ok("y");
    if confirm {
      ans := Ask(answers, {"y", "n"});
    }
    if ans.Err? {
      return Err(ans.error);
    }
    r := Ok(());
    if ans.value == "y" {
      r := fs.RemoveTree(del);
    }
  }

  /** An upper-case `Y` satisfies the prompt but does not remove anything. */
  lemma UpperYKeeps(rest: seq<string>)
    ensures YesNo(["Y"] + rest) == Ok("Y")
  {
    assert Lower("Y") == "y";
  }

  /** The path `remove_jar` deletes: the whole cache for `all`, else the tag's cached jar. */
  function JarTarget(home: Path, typeId: string): Path {
    if typeId == "all" then home + ["jars"] else Web.CachePath(home, typeId)
  }

  /** `remove_jar`: the target must exist; on an answer of exactly `y` a tag's jar is unlinked, or
      for `all` the whole `jars` directory is removed. */
  method RemoveJar(fs: FileSystem, home: Path, typeId: string, answers: seq<string>) returns (r: Result<()>)
    modifies fs
    ensures fs.modes == old(fs.modes)
    ensures var del := JarTarget(home, typeId);
      var ans := YesNo(answers);
      if !old(fs.Exists(del)) then r == Err(AssertionError) && unchanged(fs)
      else if ans.Err? then r == Err(EOFError) && unchanged(fs)
      else if ans.value != "y" then r == Ok(()) && unchanged(fs)
      else if typeId != "all" then
        if del in old(fs.files) then r == Ok(()) && fs.files == old(fs.files) - {del} && fs.dirs == old(fs.dirs)
        else r == Err(IsADirectoryError) && unchanged(fs)
      else if del in old(fs.dirs) then
        && r == Ok(())
        && fs.files == (map q | q in old(fs.files) && !Under(q, del) :: old(fs.files)[q])
        && fs.dirs == (set q | q in old(fs.dirs) && !Under(q, del))
      else r == Err(NotADirectoryError) && unchanged(fs)
  {
    var del := JarTarget(home, typeId);
    if !fs.Exists(del) {
      return Err(AssertionError);
    }
    var ans := Ask(answers, {"y", "n"});
    if ans.Err? {
      return Err(ans.error);
    }
    if ans.value != "y" {
      return Ok(());
    }
    if typeId != "all" {
      r := fs.Unlink(del);
    } else {
      r := fs.RemoveTree(del);
    }
  }

  // ---------------------------------------------------------------------------------------------
  // inspect

  /** The lines of one log: a `.gz` log is decompressed by `gunzip` (`None` for a stream that is
      not gzip data), any other file is read as text. */
  function LogLines(files: map<Path, string>, log: Path, gunzip: string -> Option<string>): Option<seq<string>>
    requires log in files
  {
    if |log| > 0 && EndsWith(log[|log| - 1], ".gz") then
      match gunzip(files[log])
      case None => None
      case Some(text) => Some(ReadLines(text))
    else Some(ReadLines(files[log]))
  }

  /** Reading one log in the loop of `inspect`. A bad gzip stream is re-raised as `OSError`. A
      directory cannot be opened, and the `finally` clause then closes `log_file`: on the first
      iteration that name is not bound yet, which raises `UnboundLocalError`; later it still names
      the previous (closed) file and the original `IsADirectoryError` propagates. */
  function ReadLog(files: map<Path, string>, log: Path, gunzip: string -> Option<string>, first: bool): Result<seq<string>> {
    if log !in files then Err(if first then UnboundLocalError else IsADirectoryError)
    else match LogLines(files, log, gunzip)
      case None => Err(OSError)
      case Some(lines) => Ok(lines)
  }

  /** The outcome of reading one log. */
  type LogRead = Result<seq<string>>

  /** What reading each of the sorted `logs` yields; the newest, read first, is the last. */
  function Reads(files: map<Path, string>, logs: seq<Path>, gunzip: string -> Option<string>): (r: seq<LogRead>)
    ensures |r| == |logs|
  {
    seq(|logs|, i requires 0 <= i < |logs| => ReadLog(files, logs[i], gunzip, i == |logs| - 1))
  }

  lemma ReadsAt(files: map<Path, string>, logs: seq<Path>, gunzip: string -> Option<string>, k: nat)
    requires k < |logs|
    ensures Reads(files, logs, gunzip)[k] == ReadLog(files, logs[k], gunzip, k == |logs| - 1)
  {
  }

  /** The loop of `inspect` over the outcomes of reading the logs taken from the end (newest first), each
      log's lines put in front of those already read, stopping once at least `limit` lines are
      held. */
  function Gather(outs: seq<LogRead>, acc: seq<string>, limit: nat): Result<seq<string>>
    decreases |outs|
  {
    if |outs| == 0 then Ok(acc)
    else
      var got :- outs[|outs| - 1];
      var lines := got + acc;
      if |lines| >= limit then Ok(lines)
      else Gather(outs[..|outs| - 1], lines, limit)
  }

  /** What `inspect` prints, for the sorted walk `logs` of the log directory. */
  function InspectOutput(files: map<Path, string>, logs: seq<Path>, limit: int,
                         gunzip: string -> Option<string>): Result<string> {
    if limit < 0 then Err(AssertionError)
    else
      var lines :- Gather(Reads(files, logs, gunzip), [], limit);
      Ok(Concat(LastN(lines, limit)))
  }

  /** `inspect`: the last `limit` log lines of the instance, oldest log first, or for `limit == 0`
      all lines of the newest log. */
  method Inspect(fs: FileSystem, home: Path, instance: string, limit: int, gunzip: string -> Option<string>)
      returns (r: Result<string>)
    ensures r == InspectOutput(fs.files, SortedOf(Descendants(fs.files, fs.dirs, home + ["instances", instance, "logs"])), limit, gunzip)
  {
    if limit < 0 {
      return Err(AssertionError);
    }
    var logs := ChildPaths(fs, home + ["instances", instance, "logs"]);
    var lines := ReadLogs(fs, logs, limit, gunzip);
    if lines.Err? {
      return Err(lines.error);
    }
    r := Ok(Concat(LastN(lines.value, limit)));
  }

  /** The loop of `inspect`: `logs` newest first, stopping once `limit` lines are held. */
  method ReadLogs(fs: FileSystem, logs: seq<Path>, limit: nat, gunzip: string -> Option<string>) returns (r: Result<seq<string>>)
    ensures r == Gather(Reads(fs.files, logs, gunzip), [], limit)
  {
    ghost var outs := Reads(fs.files, logs, gunzip);
    var lines: seq<string> := [];
    var i := |logs|;
    var first := true;
    assert outs[..i] == outs;
    while i > 0
      invariant 0 <= i <= |logs|
      invariant first == (i == |logs|)
      invariant Gather(outs, [], limit) == Gather(outs[..i], lines, limit)
    {
      var got := ReadLog(fs.files, logs[i - 1], gunzip, first);
      ReadsAt(fs.files, logs, gunzip, i - 1);
      assert outs[..i][i - 1] == outs[i - 1];
      assert outs[..i][..i - 1] == outs[..i - 1];
      if got.Err? {
        return Err(got.error);
      }
      lines := got.value + lines;
      if |lines| >= limit {
        return Ok(lines);
      }
      i := i - 1;
      first := false;
    }
    r := Ok(lines);
  }

  /** Every log is a file that can be read. */
  predicate Readable(files: map<Path, string>, logs: seq<Path>, gunzip: string -> Option<string>) {
    forall i :: 0 <= i < |logs| ==> logs[i] in files && LogLines(files, logs[i], gunzip).Some?
  }

  /** All outs succeeded. */
  predicate AllOk(outs: seq<LogRead>) {
    forall i :: 0 <= i < |outs| ==> outs[i].Ok?
  }

  /** The lines of all logs, oldest first. */
  function AllLines(outs: seq<LogRead>): seq<string>
    requires AllOk(outs)
    decreases |outs|
  {
    if |outs| == 0 then []
    else AllLines(outs[..|outs| - 1]) + outs[|outs| - 1].value
  }

  /** `t` ends `s`. */
  predicate TailOf(t: seq<string>, s: seq<string>) {
    |t| <= |s| && t == s[|s| - |t|..]
  }

  /** When every log outs, the loop ends with a tail of all lines that is either all of them or
      at least `limit` long. */
  lemma {:induction false} GatherTail(outs: seq<LogRead>, acc: seq<string>, limit: nat)
    requires AllOk(outs)
    ensures Gather(outs, acc, limit).Ok?
    ensures var all := AllLines(outs) + acc;
      var t := Gather(outs, acc, limit).value;
      TailOf(t, all) && (t == all || |t| >= limit)
    decreases |outs|
  {
    if |outs| == 0 {
      assert AllLines(outs) + acc == acc;
    } else {
      var init := outs[..|outs| - 1];
      assert AllOk(init) by {
        forall i | 0 <= i < |init| ensures init[i].Ok? {
          assert init[i] == outs[i];
        }
      }
      var got := outs[|outs| - 1].value;
      var all := AllLines(outs) + acc;
      assert all == AllLines(init) + (got + acc);
      if |got + acc| < limit {
        GatherTail(init, got + acc, limit);
      }
    }
  }

  /** Readable logs read without error. */
  lemma ReadableReads(files: map<Path, string>, logs: seq<Path>, gunzip: string -> Option<string>)
    requires Readable(files, logs, gunzip)
    ensures AllOk(Reads(files, logs, gunzip))
  {
    var outs := Reads(files, logs, gunzip);
    forall i | 0 <= i < |logs| ensures outs[i].Ok? {
      assert logs[i] in files && LogLines(files, logs[i], gunzip).Some?;
    }
  }

  /** The suffix of length `n` of a long enough suffix of `s` is that of `s`. */
  lemma LastNOfTail(s: seq<string>, t: seq<string>, n: nat)
    requires TailOf(t, s)
    requires t == s || |t| >= n
    requires n > 0
    ensures LastN(t, n) == LastN(s, n)
  {
    if t != s && |t| > n {
      assert t[|t| - n..] == s[|s| - n..];
    }
  }

  /** With a positive limit and readable logs `inspect` prints the last `limit` lines of all the
      logs taken oldest first, whatever their number. */
  lemma InspectTail(files: map<Path, string>, logs: seq<Path>, limit: int, gunzip: string -> Option<string>)
    requires limit > 0
    requires Readable(files, logs, gunzip)
    ensures AllOk(Reads(files, logs, gunzip))
    ensures InspectOutput(files, logs, limit, gunzip) == Ok(Concat(LastN(AllLines(Reads(files, logs, gunzip)), limit)))
  {
    var outs := Reads(files, logs, gunzip);
    ReadableReads(files, logs, gunzip);
    GatherTail(outs, [], limit);
    var all := AllLines(outs);
    assert all + [] == all;
    LastNOfTail(all, Gather(outs, [], limit).value, limit);
  }

  /** With limit 0 only the newest log is read, and all its lines are printed. */
  lemma InspectNewest(files: map<Path, string>, logs: seq<Path>, gunzip: string -> Option<string>)
    ensures var out := InspectOutput(files, logs, 0, gunzip);
      && (|logs| == 0 ==> out == Ok(""))
      && (|logs| > 0 ==>
            var newest := ReadLog(files, logs[|logs| - 1], gunzip, true);
            out == if newest.Err? then Err(newest.error) else Ok(Concat(newest.value)))
  {
    if |logs| > 0 {
      var outs := Reads(files, logs, gunzip);
      assert outs[|logs| - 1] == ReadLog(files, logs[|logs| - 1], gunzip, true);
      var newest := outs[|logs| - 1];
      if newest.Ok? {
        assert newest.value + [] == newest.value;
      }
    }
  }

  // ---------------------------------------------------------------------------------------------
  // export

  datatype Compression = Stored | Deflated

  /** The world name `export` filters by: `level-name` from the instance's `server.properties` when
      only the world is exported, else the empty filter. */
  function WorldFilter(files: map<Path, string>, dirs: set<Path>, serverPath: Path, worldOnly: bool): Result<string> {
    if !worldOnly then Ok("")
    else
      var cfgPath := serverPath + ["server.properties"];
      if cfgPath in dirs then Err(IsADirectoryError)
      else if cfgPath !in files then Err(FileNotFoundError)
      else
        var cfg :- Config.ParseContent(files[cfgPath]);
        match Config.Get(cfg, "level-name")
        case None => Err(KeyError)
        case Some(world) => Ok(world)
  }

  /** The archive `export` writes, as its list of members: each selected relative path with the
      content of the file there (`None` for a directory), and the compression. */
  datatype Archive = Archive(members: seq<(Path, Option<string>)>, compression: Compression)

  /** The archive contents of `export`: the instance's descendants whose first relative part
      contains the world filter, in sorted order, stored or deflated as `compress` asks. */
  method Export(fs: FileSystem, home: Path, instance: string, compress: bool, worldOnly: bool) returns (r: Result<Archive>)
    ensures var serverPath := home + ["instances", instance];
      var world := WorldFilter(fs.files, fs.dirs, serverPath, worldOnly);
      if world.Err? then r == Err(world.error)
      else
        var sel := Select(SortedOf(Descendants(fs.files, fs.dirs, serverPath)), |serverPath|, world.value, 0);
        && sel.Ok? && r.Ok?
        && r.value.compression == (if compress then Deflated else Stored)
        && |r.value.members| == |sel.value|
        && forall i :: 0 <= i < |sel.value| ==>
             var full := serverPath + sel.value[i];
             r.value.members[i] == (sel.value[i], if full in fs.files then Some(fs.files[full]) else None)
    ensures r.Ok? ==> forall m :: m in r.value.members ==> |m.0| > 0 && Contains(m.0[0], WorldFilter(fs.files, fs.dirs, home + ["instances", instance], worldOnly).value)
  {
    var serverPath := home + ["instances", instance];
    var world := "";
    if worldOnly {
      var cfg := Config.GetProperties(fs, serverPath + ["server.properties"]);
      if cfg.Err? {
        return Err(cfg.error);
      }
      var name := Config.Get(cfg.value, "level-name");
      if name.None? {
        return Err(KeyError);
      }
      world := name.value;
    }
    assert WorldFilter(fs.files, fs.dirs, serverPath, worldOnly) == Ok(world);
    EndPartsExist(fs.files, fs.dirs, serverPath, world, 0);
    var selected := RelativePaths(fs, serverPath, world, 0);
    var fileList := selected.value;
    var members: seq<(Path, Option<string>)> := [];
    var i := 0;
    while i < |fileList|
      invariant 0 <= i <= |fileList|
      invariant |members| == i
      invariant forall k :: 0 <= k < i ==>
        members[k] == (fileList[k], if serverPath + fileList[k] in fs.files then Some(fs.files[serverPath + fileList[k]]) else None)
    {
      var full := serverPath + fileList[i];
      members := members + [(fileList[i], if full in fs.files then Some(fs.files[full]) else None)];
      i := i + 1;
    }
    r := Ok(Archive(members, if compress then Deflated else Stored));
    forall m | m in members ensures |m.0| > 0 && Contains(m.0[0], world) {
      var k :| 0 <= k < |members| && members[k] == m;
      assert fileList[k] in fileList;
      var p :| p in Descendants(fs.files, fs.dirs, serverPath) && fileList[k] == p[|serverPath|..] && Kept(p, |serverPath|, world, 0);
    }
  }
}
