/** Storage helpers of the legacy src/mcctl/modules/storage.py: the home directory looked up in the
    password file, the world-directory walk, the delete prompt and the export selection. */
module LegacyStorage {
  import opened Wrappers
  import opened Text
  import opened Host
  import opened Order
  import Storage

  // ---------------------------------------------------------------------------------------------
  // getHomePath

  /** `getHomePath` as written: the sixth `:`-separated field of the first line of the password
      file that contains `userName` anywhere, `IndexError` when that line has fewer fields, and
      `None` when no line contains the name. */
  function HomeField(lines: seq<string>, userName: string): (r: Result<Option<string>>)
    ensures r.Err? ==> r.error == IndexError
    ensures r == Ok(None) <==> forall i :: 0 <= i < |lines| ==> !Contains(lines[i], userName)
    decreases |lines|
  {
    if |lines| == 0 then Ok(None)
    else if Contains(lines[0], userName) then
      match Storage.PyIndex(Split(lines[0], ':'), 5)
      case None => Err(IndexError)
      case Some(field) => Ok(Some(field))
    else
      var r := HomeField(lines[1..], userName);
      assert r == Ok(None) <==> forall i :: 0 <= i < |lines| ==> !Contains(lines[i], userName) by {
        if forall i :: 0 <= i < |lines| - 1 ==> !Contains(lines[1..][i], userName) {
          forall i | 0 <= i < |lines| ensures !Contains(lines[i], userName) {
            if i > 0 { assert lines[i] == lines[1..][i - 1]; }
          }
        }
      }
      r
  }

  /** The loop of `getHomePath` over the lines of the password file, with its early return. */
  method GetHomePath(passwd: string, userName: string) returns (r: Result<Option<string>>)
    ensures r == HomeField(ReadLines(passwd), userName)
  {
    var lines := ReadLines(passwd);
    r := FirstMatch(lines, userName);
  }

  method FirstMatch(lines: seq<string>, userName: string) returns (r: Result<Option<string>>)
    ensures r == HomeField(lines, userName)
  {
    var i := 0;
    while i < |lines|
      invariant 0 <= i <= |lines|
      invariant HomeField(lines[i..], userName) == HomeField(lines, userName)
    {
      if Contains(lines[i], userName) {
        var fields := Split(lines[i], ':');
        if |fields| <= 5 {
          return Err(IndexError);
        }
        return Ok(Some(fields[5]));
      }
      assert lines[i..][1..] == lines[i + 1..];
      i := i + 1;
    }
    r := Ok(None);
  }

  /** A user name that is a prefix of another user's name (`mc` and `mcserver`) picks that other
      user's home when the other user's line comes first; the exact lookup picks the user's own. */
  lemma SubstringMatchPicksOtherUser(user: string, more: string, otherHome: string, home: string)
    requires ':' !in user + more && ':' !in otherHome && ':' !in home && more != ""
    ensures var lines := [user + more + ":::::" + otherHome, user + ":::::" + home];
      && HomeField(lines, user) == Ok(Some(otherHome))
      && HomeFieldExact(lines, user) == Ok(Some(home))
  {
    var l0, l1 := user + more + ":::::" + otherHome, user + ":::::" + home;
    assert ':' !in user by { assert user <= user + more; }
    SampleFields(user + more, otherHome);
    SampleFields(user, home);
    assert OccursAt(l0, user, 0) by { assert l0[..|user|] == user; }
    HomeFieldHit([l0, l1], user, [user + more, "", "", "", "", otherHome]);
    assert user + more != user by { assert |user + more| > |user|; }
    HomeFieldExactSkip([l0, l1], user);
    assert [l0, l1][1..] == [l1];
    HomeFieldExactHit([l1], user, [user, "", "", "", "", home]);
  }

  /** The fields of a password line with only a user name and a home directory. */
  lemma SampleFields(user: string, home: string)
    requires ':' !in user && ':' !in home
    ensures Split(user + ":::::" + home, ':') == [user, "", "", "", "", home]
  {
    var f := [user, "", "", "", "", home];
    assert Join(":", f[5..]) == home;
    assert Join(":", f[4..]) == ":" + home by { assert f[4..][1..] == f[5..]; }
    assert Join(":", f[3..]) == "::" + home by { assert f[3..][1..] == f[4..]; }
    assert Join(":", f[2..]) == ":::" + home by { assert f[2..][1..] == f[3..]; }
    assert Join(":", f[1..]) == "::::" + home by { assert f[1..][1..] == f[2..]; }
    assert Join(":", f) == user + ":::::" + home;
    SplitFields(f);
  }

  lemma HomeFieldHit(lines: seq<string>, userName: string, fields: seq<string>)
    requires |lines| > 0 && Contains(lines[0], userName)
    requires Split(lines[0], ':') == fields && |fields| > 5
    ensures HomeField(lines, userName) == Ok(Some(fields[5]))
  {
  }

  lemma HomeFieldExactHit(lines: seq<string>, userName: string, fields: seq<string>)
    requires |lines| > 0 && Split(lines[0], ':') == fields && |fields| > 5 && fields[0] == userName
    ensures HomeFieldExact(lines, userName) == Ok(Some(fields[5]))
  {
  }

  lemma HomeFieldExactSkip(lines: seq<string>, userName: string)
    requires |lines| > 0 && Split(lines[0], ':')[0] != userName
    ensures HomeFieldExact(lines, userName) == HomeFieldExact(lines[1..], userName)
  {
  }

  /** Splitting a joined line at `:` yields its fields back when none holds a `:`. */
  lemma {:induction false} SplitFields(fields: seq<string>)
    requires |fields| > 0
    requires forall i :: 0 <= i < |fields| ==> ':' !in fields[i]
    ensures Split(Join(":", fields), ':') == fields
    decreases |fields|
  {
    if |fields| > 1 {
      var rest := Join(":", fields[1..]);
      assert Join(":", fields) == fields[0] + [':'] + rest;
      SplitCons(fields[0], ':', rest);
      SplitFields(fields[1..]);
      assert [fields[0]] + fields[1..] == fields;
    } else {
      assert ':' !in Join(":", fields);
    }
  }

  /** The lookup the newer storage module makes through the password database: the home field of
      the first line whose user-name field is exactly `userName`. */
  function HomeFieldExact(lines: seq<string>, userName: string): (r: Result<Option<string>>)
    ensures r.Err? ==> r.error == IndexError
    ensures r == Ok(None) <==> forall i :: 0 <= i < |lines| ==> Split(lines[i], ':')[0] != userName
    ensures r.Ok? && r.value.Some? ==>
      exists i :: 0 <= i < |lines| && |Split(lines[i], ':')| > 5 && Split(lines[i], ':')[0] == userName
                  && Split(lines[i], ':')[5] == r.value.value
                  && forall j :: 0 <= j < i ==> Split(lines[j], ':')[0] != userName
    decreases |lines|
  {
    if |lines| == 0 then Ok(None)
    else if Split(lines[0], ':')[0] == userName then
      match Storage.PyIndex(Split(lines[0], ':'), 5)
      case None => Err(IndexError)
      case Some(field) => Ok(Some(field))
    else
      var r := HomeFieldExact(lines[1..], userName);
      assert r == Ok(None) <==> forall i :: 0 <= i < |lines| ==> Split(lines[i], ':')[0] != userName by {
        if forall i :: 0 <= i < |lines| - 1 ==> Split(lines[1..][i], ':')[0] != userName {
          forall i | 0 <= i < |lines| ensures Split(lines[i], ':')[0] != userName {
            if i > 0 { assert lines[i] == lines[1..][i - 1]; }
          }
        }
      }
      assert r.Ok? && r.value.Some? ==>
        exists i :: 0 <= i < |lines| && |Split(lines[i], ':')| > 5 && Split(lines[i], ':')[0] == userName
                    && Split(lines[i], ':')[5] == r.value.value
                    && forall j :: 0 <= j < i ==> Split(lines[j], ':')[0] != userName by {
        if r.Ok? && r.value.Some? {
          var i :| 0 <= i < |lines| - 1 && |Split(lines[1..][i], ':')| > 5 && Split(lines[1..][i], ':')[0] == userName
                   && Split(lines[1..][i], ':')[5] == r.value.value
                   && forall j :: 0 <= j < i ==> Split(lines[1..][j], ':')[0] != userName;
          assert lines[i + 1] == lines[1..][i];
          forall j | 0 <= j < i + 1 ensures Split(lines[j], ':')[0] != userName {
            if j > 0 { assert lines[j] == lines[1..][j - 1]; }
          }
        }
      }
      r
  }

  // ---------------------------------------------------------------------------------------------
  // getChildPaths

  /** `parts[length:]` with `length = len(base.parts) - 1`; for an empty base that is the slice
      `[-1:]`, the last part alone. */
  function KeepFrom(p: Path, base: Path): Path
    requires |p| > |base|
  {
    if |base| == 0 then p[|p| - 1..] else p[|base| - 1..]
  }

  // The directories the recursive glob of `getChildPaths` yields: each directory below `base`
  // whose first part below `base` starts with `world`.
  function WorldDirs(dirs: set<Path>, base: Path, world: string): (r: set<Path>)
    ensures forall d :: d in r <==> d in dirs && Under(d, base) && |d| > |base| && StartsWith(d[|base|], world)
  {
    set d | d in dirs && Under(d, base) && |d| > |base| && StartsWith(d[|base|], world)
  }

  /** `getChildPaths`: those directories, relative to the parent of `base` (so they start with the
      base's own name); `None` for the world name means every directory. */
  method ChildPaths(fs: FileSystem, base: Path, worldName: Option<string>) returns (r: seq<Path>)
    ensures var world := if worldName.None? then "" else worldName.value;
      && |r| == |WorldDirs(fs.dirs, base, world)|
      && forall q :: q in r <==> exists d :: d in WorldDirs(fs.dirs, base, world) && q == KeepFrom(d, base)
  {
    var world := if worldName.None? then "" else worldName.value;
    var ds := WorldDirs(fs.dirs, base, world);
    var found := SortPaths(ds);
    r := KeepAll(found, base);
    KeptMembers(found, r, ds, base);
  }

  /** The loop of `getChildPaths`, mapping each found directory to its relative path. */
  method KeepAll(found: seq<Path>, base: Path) returns (r: seq<Path>)
    requires forall k :: 0 <= k < |found| ==> |found[k]| > |base|
    ensures |r| == |found| && forall k :: 0 <= k < |r| ==> r[k] == KeepFrom(found[k], base)
  {
    r := [];
    var i := 0;
    while i < |found|
      invariant 0 <= i <= |found|
      invariant |r| == i
      invariant forall k :: 0 <= k < i ==> r[k] == KeepFrom(found[k], base)
    {
      r := r + [KeepFrom(found[i], base)];
      i := i + 1;
    }
  }

  lemma KeptMembers(found: seq<Path>, r: seq<Path>, ds: set<Path>, base: Path)
    requires forall d :: d in found <==> d in ds
    requires forall d :: d in ds ==> |d| > |base|
    requires |r| == |found| && forall k :: 0 <= k < |r| ==> r[k] == KeepFrom(found[k], base)
    ensures forall q :: q in r <==> exists d :: d in ds && q == KeepFrom(d, base)
  {
    forall q ensures q in r <==> exists d :: d in ds && q == KeepFrom(d, base) {
      if q in r {
        var k :| 0 <= k < |r| && r[k] == q;
        assert found[k] in ds;
      }
      if exists d :: d in ds && q == KeepFrom(d, base) {
        var d :| d in ds && q == KeepFrom(d, base);
        assert d in found;
        var k :| 0 <= k < |found| && found[k] == d;
        assert r[k] == q;
      }
    }
  }

  /** Below a non-empty base every directory is listed under its own relative path: distinct
      directories give distinct entries. */
  lemma KeepFromInjective(d: Path, e: Path, base: Path)
    requires |base| > 0 && |d| > |base| && |e| > |base| && Under(d, base) && Under(e, base)
    requires KeepFrom(d, base) == KeepFrom(e, base)
    ensures d == e
  {
    assert d == base[..|base| - 1] + KeepFrom(d, base);
    assert e == base[..|base| - 1] + KeepFrom(e, base);
  }

  // ---------------------------------------------------------------------------------------------
  // delete

  /** The answer `delete`'s prompt settles on: the first answer lower-cased, then, while it is not
      `y` or `n`, the next answer exactly as typed. */
  function DeleteAnswer(answers: seq<string>): (r: Result<string>)
    ensures r.Ok? ==> r.value in {"y", "n"}
    ensures r.Err? ==> r.error == EOFError
  {
    if |answers| == 0 then Err(EOFError)
    else if Lower(answers[0]) in {"y", "n"} then Ok(Lower(answers[0]))
    else RawAnswer(answers[1..])
  }

  /** The first answer that is exactly `y` or `n`. */
  function RawAnswer(answers: seq<string>): (r: Result<string>)
    ensures r.Ok? ==> r.value in {"y", "n"} && r.value in answers
    ensures r.Err? <==> forall i :: 0 <= i < |answers| ==> answers[i] !in {"y", "n"}
    ensures r.Err? ==> r.error == EOFError
    decreases |answers|
  {
    if |answers| == 0 then Err(EOFError)
    else if answers[0] in {"y", "n"} then Ok(answers[0])
    else
      var r := RawAnswer(answers[1..]);
      assert r.Err? <==> forall i :: 0 <= i < |answers| ==> answers[i] !in {"y", "n"} by {
        if forall i :: 0 <= i < |answers| - 1 ==> answers[1..][i] !in {"y", "n"} {
          forall i | 0 <= i < |answers| ensures answers[i] !in {"y", "n"} {
            if i > 0 { assert answers[i] == answers[1..][i - 1]; }
          }
        }
      }
      r
  }

  /** `delete`: ask first, then remove the instance's tree iff the settled answer is `y`; `home`
      is what `getHomePath` returned, and a missing one fails in building the path. */
  method Delete(fs: FileSystem, home: Option<Path>, instance: string, answers: seq<string>) returns (r: Result<()>)
    modifies fs
    ensures fs.modes == old(fs.modes)
    ensures match DeleteAnswer(answers)
      case Err(e) => r == Err(e) && unchanged(fs)
      case Ok(a) =>
        if a != "y" then r == Ok(()) && unchanged(fs)
        else if home.None? then r == Err(TypeError) && unchanged(fs)
        else
          var del := home.value + ["instances", instance];
          if del !in old(fs.dirs) then
            r == Err(if del in old(fs.files) then NotADirectoryError else FileNotFoundError) && unchanged(fs)
          else
            && r == Ok(())
            && fs.files == (map q | q in old(fs.files) && !Under(q, del) :: old(fs.files)[q])
            && fs.dirs == (set q | q in old(fs.dirs) && !Under(q, del))
  {
    if |answers| == 0 {
      return Err(EOFError);
    }
    var ans := Lower(answers[0]);
    var k := 1;
    while ans !in {"y", "n"}
      invariant 1 <= k <= |answers|
      invariant ans in {"y", "n"} ==> DeleteAnswer(answers) == Ok(ans)
      invariant ans !in {"y", "n"} ==> DeleteAnswer(answers) == RawAnswer(answers[k..])
      decreases |answers| - k, ans !in {"y", "n"}
    {
      if k == |answers| {
        return Err(EOFError);
      }
      assert answers[k..][1..] == answers[k + 1..];
      ans := answers[k];
      k := k + 1;
    }
    r := Ok(());
    if ans == "y" {
      if home.None? {
        return Err(TypeError);
      }
      r := fs.RemoveTree(home.value + ["instances", instance]);
    }
  }

  /** Only the first answer is lower-cased: `Y` first deletes, `Y` after a wrong answer is asked
      about again. */
  lemma DeleteCase()
    ensures DeleteAnswer(["Y"]) == Ok("y")
    ensures DeleteAnswer(["maybe", "Y", "n"]) == Ok("n")
  {
    assert Lower("Y") == "y";
    assert Lower("maybe") == "maybe";
    assert ["maybe", "Y", "n"][1..] == ["Y", "n"];
    assert ["Y", "n"][1..] == ["n"];
  }

  // ---------------------------------------------------------------------------------------------
  // export

  /** The world prefix of the legacy `export`. */
  function ExportWorld(worldOnly: bool): string {
    if worldOnly then "world" else ""
  }

  /** The paths the legacy `export` archives: the world directories (every directory when not
      `worldOnly`) of the instance; an empty selection fails in `max` with `ValueError`, and a
      home directory that was not found fails in building the path with `TypeError`. */
  method ExportSelection(fs: FileSystem, home: Option<Path>, instance: string, worldOnly: bool) returns (r: Result<seq<Path>>)
    ensures home.None? ==> r == Err(TypeError)
    ensures home.Some? ==>
      var base := home.value + ["instances", instance];
      var found := WorldDirs(fs.dirs, base, ExportWorld(worldOnly));
      && (r.Err? <==> found == {})
      && (r.Err? ==> r.error == ValueError)
      && (r.Ok? ==> forall q :: q in r.value <==> exists d :: d in found && q == KeepFrom(d, base))
  {
    if home.None? {
      return Err(TypeError);
    }
    var base := home.value + ["instances", instance];
    var fileList := ChildPaths(fs, base, Some(ExportWorld(worldOnly)));
    if |fileList| == 0 {
      return Err(ValueError);
    }
    r := Ok(fileList);
  }
}
