/** Privilege scoping of src/mcctl/perms.py: switching the effective ids for a block and back,
    the `sudo` command line `elevate` re-executes with, and the id drop `demote` prepares for a
    child process. The ids follow the Linux rules for `setegid`, `seteuid`, `setgid` and
    `setuid`; the password database is given as the looked-up ids. */
module Perms {
  import opened Wrappers

  /** Real, effective and saved user and group ids of the process. */
  datatype Ids = Ids(ruid: nat, euid: nat, suid: nat, rgid: nat, egid: nat, sgid: nat)

  /** An id-changing system call, in the order the process makes them. */
  datatype IdCall = SetEgidCall(gid: nat) | SetEuidCall(uid: nat) | SetGidCall(gid: nat) | SetUidCall(uid: nat)

  /** `os.setegid`: with effective uid 0 any group; otherwise the real, effective or saved one. */
  function SetEgid(ids: Ids, g: nat): (r: Result<Ids>)
    ensures r.Ok? <==> ids.euid == 0 || g == ids.rgid || g == ids.egid || g == ids.sgid
    ensures r.Ok? ==> r.value == ids.(egid := g)
    ensures r.Err? ==> r.error == PermissionError
  {
    if ids.euid == 0 || g == ids.rgid || g == ids.egid || g == ids.sgid then Ok(ids.(egid := g))
    else Err(PermissionError)
  }

  /** `os.seteuid`: with effective uid 0 any user; otherwise the real, effective or saved one. */
  function SetEuid(ids: Ids, u: nat): (r: Result<Ids>)
    ensures r.Ok? <==> ids.euid == 0 || u == ids.ruid || u == ids.euid || u == ids.suid
    ensures r.Ok? ==> r.value == ids.(euid := u)
    ensures r.Err? ==> r.error == PermissionError
  {
    if ids.euid == 0 || u == ids.ruid || u == ids.euid || u == ids.suid then Ok(ids.(euid := u))
    else Err(PermissionError)
  }

  /** `os.setgid`: with effective uid 0 it sets all three group ids; otherwise only the effective
      one, to the real or saved group. */
  function SetGid(ids: Ids, g: nat): (r: Result<Ids>)
    ensures r.Ok? <==> ids.euid == 0 || g == ids.rgid || g == ids.sgid
    ensures r.Ok? ==> r.value.egid == g
  {
    if ids.euid == 0 then Ok(ids.(rgid := g, egid := g, sgid := g))
    else if g == ids.rgid || g == ids.sgid then Ok(ids.(egid := g))
    else Err(PermissionError)
  }

  /** `os.setuid`: with effective uid 0 it sets all three user ids; otherwise only the effective
      one, to the real or saved user. */
  function SetUid(ids: Ids, u: nat): (r: Result<Ids>)
    ensures r.Ok? <==> ids.euid == 0 || u == ids.ruid || u == ids.suid
    ensures r.Ok? ==> r.value.euid == u
  {
    if ids.euid == 0 then Ok(ids.(ruid := u, euid := u, suid := u))
    else if u == ids.ruid || u == ids.suid then Ok(ids.(euid := u))
    else Err(PermissionError)
  }

  // ---------------------------------------------------------------------------------------------
  // set_eids and run_as

  /** `set_eids`: the old effective ids, and the ids after setting the group first and the user
      second. When `seteuid` is refused the new group stays in force. */
  function SetEidsOf(ids: Ids, uid: nat, gid: nat): (r: (Result<(nat, nat)>, Ids))
    ensures r.0.Ok? ==> r.0.value == (ids.euid, ids.egid) && r.1 == ids.(euid := uid, egid := gid)
    ensures r.0.Err? ==> r.0.error == PermissionError && r.1.euid == ids.euid && r.1.(egid := ids.egid) == ids
    ensures ids.euid == 0 ==> r.0.Ok?
  {
    match SetEgid(ids, gid)
    case Err(e) => (Err(e), ids)
    case Ok(ids1) =>
      match SetEuid(ids1, uid)
      case Err(e) => (Err(e), ids1)
      case Ok(ids2) => (Ok((ids.euid, ids.egid)), ids2)
  }

  /** `run_as` around a block that leaves the ids alone and raises `blockError`, if any: switch,
      run the block, switch back in `finally`. An error while switching back replaces the
      block's. */
  function RunAsOf(ids: Ids, uid: nat, gid: nat, blockError: Option<Error>): (Result<()>, Ids) {
    var (switched, inside) := SetEidsOf(ids, uid, gid);
    if switched.Err? then (Err(switched.error), inside)
    else
      var (restored, after) := SetEidsOf(inside, switched.value.0, switched.value.1);
      if restored.Err? then (Err(restored.error), after)
      else if blockError.Some? then (Err(blockError.value), after)
      else (Ok(()), after)
  }

  /** From effective root, and with effective ids the process holds as real or saved ids too (as
      after `sudo`), `run_as` always gets back to the ids it started with, and passes on exactly the
      block's error. */
  lemma RunAsRestores(ids: Ids, uid: nat, gid: nat, blockError: Option<Error>)
    requires ids.euid == 0
    requires ids.egid == ids.rgid || ids.egid == ids.sgid
    requires ids.euid == ids.ruid || ids.euid == ids.suid
    ensures RunAsOf(ids, uid, gid, blockError).1 == ids
    ensures RunAsOf(ids, uid, gid, blockError).0 == (if blockError.Some? then Err(blockError.value) else Ok(()))
  {
    var (switched, inside) := SetEidsOf(ids, uid, gid);
    assert switched.Ok?;
    assert inside == ids.(euid := uid, egid := gid);
    var (restored, after) := SetEidsOf(inside, ids.euid, ids.egid);
    assert SetEgid(inside, ids.egid) == Ok(inside.(egid := ids.egid));
    assert SetEuid(inside.(egid := ids.egid), ids.euid) == Ok(ids);
    assert restored.Ok? && after == ids;
  }

  /** Why the group goes first: dropping from root to an ordinary user and group works in that
      order, while setting the user first leaves no right to change the group. */
  lemma GroupBeforeUser(uid: nat, gid: nat)
    requires uid != 0 && gid != 0
    ensures SetEidsOf(Ids(0, 0, 0, 0, 0, 0), uid, gid).0.Ok?
    ensures SetEuid(Ids(0, 0, 0, 0, 0, 0), uid).Ok?
    ensures SetEgid(SetEuid(Ids(0, 0, 0, 0, 0, 0), uid).value, gid).Err?
  {
  }

  /** The calls `set_eids` makes: `setegid`, then `seteuid` unless `setegid` was refused. */
  function EidsCalls(ids: Ids, uid: nat, gid: nat): (r: seq<IdCall>)
    ensures |r| > 0 && r[0] == SetEgidCall(gid) && (|r| == 2 <==> SetEgid(ids, gid).Ok?)
    ensures |r| == 2 ==> r[1] == SetEuidCall(uid)
  {
    [SetEgidCall(gid)] + (if SetEgid(ids, gid).Ok? then [SetEuidCall(uid)] else [])
  }

  /** The process whose ids the methods change. */
  class Process {
    var ids: Ids
    /** The id-changing calls made so far. */
    var calls: seq<IdCall>

    constructor (ids0: Ids)
      ensures ids == ids0 && calls == []
    {
      ids, calls := ids0, [];
    }

    /** `set_eids`: remember the effective ids, set the group, then the user. */
    method SetEids(uid: nat, gid: nat) returns (r: Result<(nat, nat)>)
      modifies this
      ensures (r, ids) == SetEidsOf(old(ids), uid, gid)
      ensures calls == old(calls) + EidsCalls(old(ids), uid, gid)
    {
      var oldIds := (ids.euid, ids.egid);
      calls := calls + [SetEgidCall(gid)];
      var g := SetEgid(ids, gid);
      if g.Err? {
        return Err(g.error);
      }
      ids := g.value;
      calls := calls + [SetEuidCall(uid)];
      var u := SetEuid(ids, uid);
      if u.Err? {
        return Err(u.error);
      }
      ids := u.value;
      r := Ok(oldIds);
    }

    /** `run_as` around a block that raises `blockError`, if any. */
    method RunAs(uid: nat, gid: nat, blockError: Option<Error>) returns (r: Result<()>)
      modifies this
      ensures (r, ids) == RunAsOf(old(ids), uid, gid, blockError)
      ensures var (switched, inside) := SetEidsOf(old(ids), uid, gid);
        calls == old(calls) + EidsCalls(old(ids), uid, gid)
                 + (if switched.Ok? then EidsCalls(inside, old(ids).euid, old(ids).egid) else [])
    {
      var old' := SetEids(uid, gid);
      if old'.Err? {
        return Err(old'.error);
      }
      var back := SetEids(old'.value.0, old'.value.1);
      if back.Err? {
        return Err(back.error);
      }
      if blockError.Some? {
        return Err(blockError.value);
      }
      r := Ok(());
    }

    /** The `set_ids` that `demote` returns, for the server user's `userUid` and `userGid`: only a
        process whose real ids are root's takes on the user's ids, real, effective and saved. */
    method SetIds(userUid: nat, userGid: nat) returns (r: Result<()>)
      modifies this
      ensures (r, ids) == SetIdsOf(old(ids), userUid, userGid)
      ensures calls == old(calls) + (if old(ids).rgid + old(ids).ruid == 0
                                     then [SetEgidCall(0), SetEuidCall(0), SetGidCall(userGid), SetUidCall(userUid)]
                                     else [])
    {
      if ids.rgid + ids.ruid == 0 {
        calls := calls + [SetEgidCall(0), SetEuidCall(0), SetGidCall(userGid), SetUidCall(userUid)];
        var a := SetEgid(ids, 0);
        var b := SetEuid(a.value, 0);
        var c := SetGid(b.value, userGid);
        var d := SetUid(c.value, userUid);
        ids := d.value;
      }
      r := Ok(());
    }
  }

  /** The effect of `set_ids`: from real root the process ends with every id the user's, so it can
      no longer regain root; otherwise nothing changes. */
  function SetIdsOf(ids: Ids, userUid: nat, userGid: nat): (r: (Result<()>, Ids))
    ensures r.0.Ok?
    ensures ids.rgid + ids.ruid == 0 ==> r.1 == Ids(userUid, userUid, userUid, userGid, userGid, userGid)
    ensures ids.rgid + ids.ruid != 0 ==> r.1 == ids
  {
    if ids.rgid + ids.ruid == 0 then
      var a := SetEgid(ids, 0);
      var b := SetEuid(a.value, 0);
      var c := SetGid(b.value, userGid);
      var d := SetUid(c.value, userUid);
      (Ok(()), d.value)
    else (Ok(()), ids)
  }

  /** After `set_ids` for an ordinary user, neither `seteuid(0)` nor `setuid(0)` is allowed. */
  lemma DemotedStaysDemoted(ids: Ids, userUid: nat, userGid: nat)
    requires ids.rgid == 0 && ids.ruid == 0 && userUid != 0
    ensures var after := SetIdsOf(ids, userUid, userGid).1;
      SetEuid(after, 0).Err? && SetUid(after, 0).Err?
  {
  }

  // ---------------------------------------------------------------------------------------------
  // elevate

  /** The command line `elevate` re-executes: `None` when the real uid already is the target
      user's; `KeyError` when the user is unknown (`userUid` is the password database's answer).
      `package` is `__main__.__package__`, `executable` is `sys.executable`. */
  function ElevateArgv(user: string, userUid: Option<nat>, uid: nat, package: Option<string>,
                       executable: string, argv: seq<string>): (r: Result<Option<seq<string>>>)
    ensures userUid.None? <==> r.Err?
    ensures r.Err? ==> r.error == KeyError
    ensures r.Ok? ==> (r.value.None? <==> uid == userUid.value)
    ensures r.Ok? && r.value.Some? ==>
      var cmd := r.value.value;
      var skip := if user == "root" then 1 else 3;
      && |cmd| >= skip && cmd[0] == "sudo"
      && (user != "root" ==> cmd[1..3] == ["-u", user])
      && cmd[skip..] == ReexecArgs(package, executable, argv)
  {
    if userUid.None? then Err(KeyError)
    else if uid == userUid.value then Ok(None)
    else
      var userargs := if user != "root" then ["-u", user] else [];
      Ok(Some(["sudo"] + userargs + ReexecArgs(package, executable, argv)))
  }

  /** The program and arguments run again under `sudo`: `python -m <package>` with the original
      arguments, or the original command line when there is no package. */
  function ReexecArgs(package: Option<string>, executable: string, argv: seq<string>): (r: seq<string>)
    ensures package.None? ==> r == argv
    ensures package.Some? ==> |r| >= 3 && r[..3] == [executable, "-m", package.value]
    ensures |argv| > 0 ==> |r| >= |argv| - 1 && r[|r| - (|argv| - 1)..] == argv[1..]
  {
    if package.None? then argv
    else [executable, "-m", package.value] + (if |argv| > 0 then argv[1..] else [])
  }
}
