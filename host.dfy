/** The part of the host the modelled code touches: a tree of text files and directories, and the
    operator's typed answers. */
module Host {
  import opened Wrappers
  import opened Text

  /** A path as Python's `Path.parts`: an absolute path starts with the component "/". */
  type Path = seq<string>

  /** `p` is `base` or lies below it. */
  predicate Under(p: Path, base: Path) {
    |base| <= |p| && p[..|base|] == base
  }

  /** The file maps `a` and `b` agree on every path that does not lie under `base`. */
  predicate SameOutside(a: map<Path, string>, b: map<Path, string>, base: Path) {
    && (forall p :: p in a && !Under(p, base) ==> p in b && b[p] == a[p])
    && (forall p :: p in b && !Under(p, base) ==> p in a)
  }

  /** Writing one file under `base` changes nothing outside it. */
  lemma SameOutsideWrite(a: map<Path, string>, dest: Path, v: string, base: Path)
    requires Under(dest, base)
    ensures SameOutside(a, a[dest := v], base)
  {
  }

  /** What reading `p` after `touch(p)` gives: the file's text, or nothing for a new file. */
  function TextOf(files: map<Path, string>, p: Path): string {
    if p in files then files[p] else ""
  }

  /** `Path.parent`; the parent of the root (or of ".") is itself. */
  function Parent(p: Path): Path {
    if |p| <= 1 then p else p[..|p| - 1]
  }

  /** `p` and every directory above it, the root included. */
  function Prefixes(p: Path): set<Path> {
    set k | 1 <= k <= |p| :: p[..k]
  }

  /** The strict ancestors of `p` that are not yet directories. */
  function MissingParents(p: Path, dirs: set<Path>): set<Path> {
    set k | 1 <= k < |p| && p[..k] !in dirs :: p[..k]
  }

  /** The permission bits `create_dirs` asks for, rwxr-x--- (0o750). */
  const DirMode: int := 0x1E8
  /** The permission bits Python's `mkdir` uses for missing parents (0o777, before the umask). */
  const DefaultMode: int := 0x1FF

  class FileSystem {
    var files: map<Path, string>
    var dirs: set<Path>
    /** Permission bits of the directories created through this model. */
    var modes: map<Path, int>

    constructor (files0: map<Path, string>, dirs0: set<Path>)
      ensures files == files0 && dirs == dirs0 && modes == map[]
    {
      files, dirs, modes := files0, dirs0, map[];
    }

    /** `Path.exists()`. */
    predicate Exists(p: Path)
      reads this
    {
      p in files || p in dirs
    }

    /** Nothing that lies at or below `p` exists. */
    predicate Absent(p: Path)
      reads this
    {
      (forall q :: q in files ==> !Under(q, p)) && (forall q :: q in dirs ==> !Under(q, p))
    }

    /** `Path.mkdir(path, mode=0o750, parents=True, exist_ok=True)`. Missing parents are made with the
        default mode, only `p` itself gets 0o750; an existing directory is not an error, an
        existing file on the way is. */
    method CreateDirs(p: Path) returns (r: Result<()>)
      modifies this
      ensures files == old(files)
      ensures p in old(dirs) || |p| == 0 ==> r.Ok? && unchanged(this)
      ensures p !in old(dirs) && |p| > 0 ==>
        if p in old(files) then r == Err(FileExistsError) && unchanged(this)
        else if exists k :: 1 <= k < |p| && p[..k] in old(files) then r == Err(NotADirectoryError) && unchanged(this)
        else
          && r.Ok?
          && dirs == old(dirs) + Prefixes(p)
          && modes == old(modes) + (map q | q in MissingParents(p, old(dirs)) :: DefaultMode) + map[p := DirMode]
    {
      if p in dirs || |p| == 0 {
        return Ok(());
      }
      if p in files {
        return Err(FileExistsError);
      }
      if exists k :: 1 <= k < |p| && p[..k] in files {
        return Err(NotADirectoryError);
      }
      modes := modes + (map q | q in MissingParents(p, dirs) :: DefaultMode) + map[p := DirMode];
      dirs := dirs + Prefixes(p);
      r := Ok(());
    }

    /** `shutil.rmtree(p)`: the directory and everything below it disappear. */
    method RemoveTree(p: Path) returns (r: Result<()>)
      modifies this
      ensures modes == old(modes)
      ensures p !in old(dirs) ==>
        r == Err(if p in old(files) then NotADirectoryError else FileNotFoundError) && unchanged(this)
      ensures p in old(dirs) ==>
        && r == Ok(())
        && files == (map q | q in old(files) && !Under(q, p) :: old(files)[q])
        && dirs == (set q | q in old(dirs) && !Under(q, p))
      ensures r.Ok? ==> Absent(p)
    {
      if p !in dirs {
        return if p in files then Err(NotADirectoryError) else Err(FileNotFoundError);
      }
      files := map q | q in files && !Under(q, p) :: files[q];
      dirs := set q | q in dirs && !Under(q, p);
      r := Ok(());
    }

    /** `Path.unlink()` on a file. */
    method Unlink(p: Path) returns (r: Result<()>)
      modifies this
      ensures p in old(files) ==> r == Ok(()) && files == old(files) - {p} && dirs == old(dirs) && modes == old(modes)
      ensures p !in old(files) ==>
        r == Err(if p in old(dirs) then IsADirectoryError else FileNotFoundError) && unchanged(this)
    {
      if p !in files {
        return if p in dirs then Err(IsADirectoryError) else Err(FileNotFoundError);
      }
      files := files - {p};
      r := Ok(());
    }

    /** Opening `p` for writing and writing `content`, replacing what was there; a new file needs
        its directory. */
    method WriteText(p: Path, content: string) returns (r: Result<()>)
      modifies this
      ensures r.Ok? <==> p !in old(dirs) && (p in old(files) || Parent(p) in old(dirs))
      ensures r.Ok? ==> files == old(files)[p := content] && dirs == old(dirs) && modes == old(modes)
      ensures r.Err? ==> unchanged(this)
    {
      if p in dirs {
        return Err(IsADirectoryError);
      }
      if p !in files && Parent(p) !in dirs {
        return Err(FileNotFoundError);
      }
      files := files[p := content];
      r := Ok(());
    }

    /** `shutil.copy(src, dest)`: onto a directory the file keeps its name. A directory as source
        is `IsADirectoryError`, a missing one `FileNotFoundError`, a copy onto the source itself
        `SameFileError`; each leaves everything unchanged. */
    method Copy(src: Path, dest: Path) returns (r: Result<Path>)
      modifies this
      ensures src !in old(files) ==> r.Err? && unchanged(this)
      ensures src !in old(files) ==> r.error == if src in old(dirs) then IsADirectoryError else FileNotFoundError
      ensures src in old(files) && (if dest in old(dirs) && |src| > 0 then dest + [src[|src| - 1]] else dest) == src ==>
                r == Err(SameFileError) && unchanged(this)
      ensures r.Ok? ==>
        && src in old(files)
        && r.value == (if dest in old(dirs) && |src| > 0 then dest + [src[|src| - 1]] else dest)
        && r.value != src
        && files == old(files)[r.value := old(files)[src]]
        && dirs == old(dirs) && modes == old(modes)
      ensures r.Err? ==> unchanged(this)
    {
      if src !in files {
        return Err(if src in dirs then IsADirectoryError else FileNotFoundError);
      }
      var target := if dest in dirs && |src| > 0 then dest + [src[|src| - 1]] else dest;
      if target == src {
        return Err(SameFileError);
      }
      var content := files[src];
      var w := WriteText(target, content);
      if w.Err? {
        return Err(w.error);
      }
      r := Ok(target);
    }
  }

  // ---------------------------------------------------------------------------------------------
  // Interactive prompts: the answers the operator types, in order.

  /** The answer a prompt loop `ans = input(...); while ans.lower() not in words: ans = input(...)`
      settles on, as typed; `EOFError` when the operator's input runs out first. */
  function Answer(answers: seq<string>, words: set<string>): (r: Result<string>)
    ensures r.Err? <==> forall j :: 0 <= j < |answers| ==> Lower(answers[j]) !in words
    ensures r.Err? ==> r.error == EOFError
    ensures r.Ok? ==> Lower(r.value) in words
    ensures r.Ok? ==> exists j :: 0 <= j < |answers| && answers[j] == r.value
                             && forall k :: 0 <= k < j ==> Lower(answers[k]) !in words
  {
    if |answers| == 0 then Err(EOFError)
    else if Lower(answers[0]) in words then Ok(answers[0])
    else
      var r := Answer(answers[1..], words);
      assert r.Ok? ==> exists j :: 0 <= j < |answers| && answers[j] == r.value
                               && forall k :: 0 <= k < j ==> Lower(answers[k]) !in words by {
        if r.Ok? {
          var j :| 0 <= j < |answers| - 1 && answers[1..][j] == r.value
                   && forall k :: 0 <= k < j ==> Lower(answers[1..][k]) !in words;
          assert answers[j + 1] == r.value;
          assert forall k :: 0 <= k < j + 1 ==> Lower(answers[k]) !in words by {
            forall k | 0 <= k < j + 1 ensures Lower(answers[k]) !in words {
              if k > 0 { assert answers[k] == answers[1..][k - 1]; }
            }
          }
        }
      }
      assert r.Err? <==> forall j :: 0 <= j < |answers| ==> Lower(answers[j]) !in words by {
        if forall j :: 0 <= j < |answers| - 1 ==> Lower(answers[1..][j]) !in words {
          forall j | 0 <= j < |answers| ensures Lower(answers[j]) !in words {
            if j > 0 { assert answers[j] == answers[1..][j - 1]; }
          }
        }
      }
      r
  }

  /** The prompt loop itself, reading one answer per iteration. */
  method Ask(answers: seq<string>, words: set<string>) returns (r: Result<string>)
    ensures r == Answer(answers, words)
  {
    var i := 0;
    while i < |answers| && Lower(answers[i]) !in words
      invariant 0 <= i <= |answers|
      invariant Answer(answers[i..], words) == Answer(answers, words)
    {
      assert answers[i..][1..] == answers[i + 1..];
      i := i + 1;
    }
    if i == |answers| {
      return Err(EOFError);
    }
    r := Ok(answers[i]);
  }
}
