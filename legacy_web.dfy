/** `pull` of the legacy src/mcctl/modules/web.py. Its URL helpers are those of src/mcctl/web.py
    with a bare `Exception` (`PlainException`) where the newer module raises `ValueError`, and
    `pull` returns only the cached path. */
module LegacyWeb {
  import opened Wrappers
  import opened Host
  import Web

  method Pull(fs: FileSystem, home: Path, source: string, literalUrl: bool, urlHash: string, remote: Web.Remote)
      returns (r: Result<Path>)
    modifies fs
    ensures var src := if literalUrl then Ok((source, Web.UrlTag(urlHash)))
                       else Web.DownloadUrlSpec(source, remote, Web.VanillaManifestUrl, PlainException);
      match src
      case Err(e) => r == Err(e) && unchanged(fs)
      case Ok(ut) =>
        var dest := Web.CachePath(home, ut.1);
        if dest in old(fs.files) then r == Ok(dest) && unchanged(fs)
        else
          && (r.Ok? ==> && r.value == dest && ut.0 in remote.bodies
                        && fs.files == old(fs.files)[dest := remote.bodies[ut.0]]
                        && Parent(dest) in fs.dirs)
          && (r.Err? ==> fs.files == old(fs.files))
          && old(fs.dirs) <= fs.dirs <= old(fs.dirs) + Prefixes(Parent(dest))
    ensures SameOutside(old(fs.files), fs.files, home + ["jars"])
  {
    ghost var before := fs.files;
    ghost var src := if literalUrl then Ok((source, Web.UrlTag(urlHash)))
                     else Web.DownloadUrlSpec(source, remote, Web.VanillaManifestUrl, PlainException);
    var pulled := Web.Pull(fs, home, source, literalUrl, urlHash, remote, PlainException);
    r := if pulled.Ok? then Ok(pulled.value.0) else Err(pulled.error);
    if src.Ok? && r.Ok? && Web.CachePath(home, src.value.1) !in before {
      var dest := Web.CachePath(home, src.value.1);
      assert dest[..|home| + 1] == home + ["jars"];
      SameOutsideWrite(before, dest, remote.bodies[src.value.0], home + ["jars"]);
    }
  }
}
