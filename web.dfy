/** Resolving server tags to download URLs and pulling server jars into the cache
    (src/mcctl/web.py). The remote services are a value of `Remote`: what each URL answers. */
module Web {
  import opened Wrappers
  import opened Text
  import opened Host

  /** `DOWNLOAD_URLS`. */
  const VanillaManifestUrl: string := "https://launchermeta.mojang.com/mc/game/version_manifest.json"
  const PaperApiUrl: string := "https://papermc.io/api/v1/paper"

  /** One entry of the version manifest's `versions` list. */
  datatype Version = Version(id: string, url: string)

  /** The fields of `version_manifest.json` the code reads. */
  datatype Manifest = Manifest(latestRelease: string, latestSnapshot: string, versions: seq<Version>)

  /** What the remote services answer; a URL missing from a map is a request that fails. */
  datatype Remote = Remote(
    manifests: map<string, Manifest>,         // a version manifest
    serverUrls: map<string, string>,          // a version's `downloads.server.url`
    paperVersions: map<string, seq<string>>,  // the `versions` list of the paper API
    paperBuilds: map<string, seq<string>>,    // the values of a resolved paper build, in order
    bodies: map<string, string>)              // the body of a downloaded file

  // ---------------------------------------------------------------------------------------------
  // URLs

  /** `join_url(base, *parts)`: the base without trailing slashes, then the parts stripped of
      surrounding slashes, all separated by single slashes. */
  function JoinUrl(base: string, parts: seq<string>): string {
    RStripChar(base, '/') + "/" + Join("/", seq(|parts|, i requires 0 <= i < |parts| => StripChar(parts[i], '/')))
  }

  /** A URL segment that `join_url` leaves as it is. */
  predicate PlainSegment(x: string) {
    x != [] && x[0] != '/' && x[|x| - 1] != '/'
  }

  lemma StripPlain(x: string)
    requires PlainSegment(x)
    ensures StripChar(x, '/') == x
  {
  }

  /** With no stray slashes, `join_url` is plain concatenation with `/` between the pieces. */
  lemma JoinUrlPlain(base: string, parts: seq<string>)
    requires base == [] || base[|base| - 1] != '/'
    requires forall i :: 0 <= i < |parts| ==> PlainSegment(parts[i])
    ensures JoinUrl(base, parts) == base + "/" + Join("/", parts)
  {
    forall i | 0 <= i < |parts| ensures StripChar(parts[i], '/') == parts[i] {
      StripPlain(parts[i]);
    }
    assert seq(|parts|, i requires 0 <= i < |parts| => StripChar(parts[i], '/')) == parts;
  }

  /** Trailing slashes on the base do not change the joined URL. */
  lemma JoinUrlTrailingSlash(base: string, parts: seq<string>)
    ensures JoinUrl(base + "/", parts) == JoinUrl(base, parts)
  {
    assert (base + "/")[..|base|] == base;
  }

  // ---------------------------------------------------------------------------------------------
  // Vanilla

  /** The URL of the first manifest entry whose id is `tag`. */
  function FirstUrl(versions: seq<Version>, tag: string): (r: Option<string>)
    ensures r.None? <==> forall i :: 0 <= i < |versions| ==> versions[i].id != tag
    ensures r.Some? ==> exists i :: 0 <= i < |versions| && versions[i].id == tag && versions[i].url == r.value
                                    && forall j :: 0 <= j < i ==> versions[j].id != tag
  {
    if |versions| == 0 then None
    else if versions[0].id == tag then Some(versions[0].url)
    else
      var r := FirstUrl(versions[1..], tag);
      assert r.Some? ==> exists i :: 0 <= i < |versions| && versions[i].id == tag && versions[i].url == r.value
                                     && forall j :: 0 <= j < i ==> versions[j].id != tag by {
        if r.Some? {
          var i :| 0 <= i < |versions| - 1 && versions[1..][i].id == tag && versions[1..][i].url == r.value
                   && forall j :: 0 <= j < i ==> versions[1..][j].id != tag;
          assert versions[i + 1] == versions[1..][i];
          forall j | 0 <= j < i + 1 ensures versions[j].id != tag {
            if j > 0 { assert versions[j] == versions[1..][j - 1]; }
          }
        }
      }
      assert r.None? <==> forall i :: 0 <= i < |versions| ==> versions[i].id != tag by {
        if r.None? {
          forall i | 0 <= i < |versions| ensures versions[i].id != tag {
            if i > 0 { assert versions[i] == versions[1..][i - 1]; }
          }
        }
      }
      r
  }

  /** The loop over `versions` that breaks at the first matching id. */
  method FindVersionUrl(versions: seq<Version>, tag: string) returns (r: Option<string>)
    ensures r == FirstUrl(versions, tag)
  {
    var i := 0;
    while i < |versions|
      invariant 0 <= i <= |versions|
      invariant FirstUrl(versions[i..], tag) == FirstUrl(versions, tag)
    {
      if versions[i].id == tag {
        return Some(versions[i].url);
      }
      assert versions[i..][1..] == versions[i + 1..];
      i := i + 1;
    }
    r := None;
  }

  /** `latest` and `latest-snap` name the manifest's current release and snapshot. */
  function ResolveVanillaTag(m: Manifest, tag: string): string {
    if tag == "latest" then m.latestRelease
    else if tag == "latest-snap" then m.latestSnapshot
    else tag
  }

  /** What `get_vanilla_download_url` returns or raises. An id missing from the manifest leaves
      `download_url` unbound. */
  function VanillaSpec(tag: string, remote: Remote, manifestUrl: string): Result<(string, string)> {
    if manifestUrl !in remote.manifests then Err(HttpError)
    else
      var m := remote.manifests[manifestUrl];
      var t := ResolveVanillaTag(m, tag);
      match FirstUrl(m.versions, t)
      case None => Err(UnboundLocalError)
      case Some(u) =>
        if u !in remote.serverUrls then Err(HttpError) else Ok((remote.serverUrls[u], "vanilla:" + t))
  }

  /** `get_vanilla_download_url`. */
  method VanillaDownloadUrl(tag: string, remote: Remote, manifestUrl: string) returns (r: Result<(string, string)>)
    ensures r == VanillaSpec(tag, remote, manifestUrl)
  {
    if manifestUrl !in remote.manifests {
      return Err(HttpError);
    }
    var manifest := remote.manifests[manifestUrl];
    var versionTag := tag;
    if versionTag == "latest" {
      versionTag := manifest.latestRelease;
    } else if versionTag == "latest-snap" {
      versionTag := manifest.latestSnapshot;
    }
    var downloadUrl := FindVersionUrl(manifest.versions, versionTag);
    if downloadUrl.None? {
      return Err(UnboundLocalError);
    }
    if downloadUrl.value !in remote.serverUrls {
      return Err(HttpError);
    }
    r := Ok((remote.serverUrls[downloadUrl.value], "vanilla:" + versionTag));
  }

  /** A resolved vanilla download is the server jar of the first manifest entry carrying the
      resolved id, and its tag is that id behind `vanilla:`. */
  lemma VanillaResolves(tag: string, remote: Remote, manifestUrl: string)
    requires VanillaSpec(tag, remote, manifestUrl).Ok?
    ensures manifestUrl in remote.manifests
    ensures var m := remote.manifests[manifestUrl];
      var t := ResolveVanillaTag(m, tag);
      && VanillaSpec(tag, remote, manifestUrl).value.1 == "vanilla:" + t
      && exists i :: 0 <= i < |m.versions| && m.versions[i].id == t && m.versions[i].url in remote.serverUrls
           && VanillaSpec(tag, remote, manifestUrl).value.0 == remote.serverUrls[m.versions[i].url]
  {
  }

  // ---------------------------------------------------------------------------------------------
  // Paper

  /** `get_paper_download_url`: `latest` takes the first version the API lists, any other tag is
      `major:minor`. A failed lookup of the build is re-raised as `notFound`. */
  function PaperDownloadUrl(tag: string, remote: Remote, baseUrl: string, notFound: Error): Result<(string, string)> {
    var mm :- if tag == "latest" then
        if baseUrl !in remote.paperVersions then Err(HttpError)
        else if |remote.paperVersions[baseUrl]| == 0 then Err(IndexError)
        else Ok((remote.paperVersions[baseUrl][0], tag))
      else
        match SplitFirst(tag, ':')
        case None => Err(ValueError)
        case Some(p) => Ok(p);
    var testUrl := JoinUrl(baseUrl, [mm.0, mm.1]);
    if testUrl !in remote.paperBuilds then Err(notFound)
    else Ok((JoinUrl(testUrl, ["download"]), Join(":", remote.paperBuilds[testUrl])))
  }

  lemma JoinTwoSegments(base: string, a: string, b: string)
    requires base == [] || base[|base| - 1] != '/'
    requires PlainSegment(a) && PlainSegment(b)
    ensures JoinUrl(base, [a, b]) == base + "/" + a + "/" + b
    ensures (base + "/" + a + "/" + b)[|base + "/" + a + "/" + b| - 1] != '/'
  {
    JoinUrlPlain(base, [a, b]);
    assert Join("/", [a, b]) == a + "/" + b by {
      assert [a, b][1..] == [b];
    }
  }

  lemma JoinDownload(base: string)
    requires base == [] || base[|base| - 1] != '/'
    ensures JoinUrl(base, ["download"]) == base + "/download"
  {
    var d := "download";
    assert d[0] == 'd' && d[|d| - 1] == 'd';
    StripPlain(d);
    assert seq(1, i requires 0 <= i < 1 => StripChar([d][i], '/')) == [d];
    assert Join("/", [d]) == d;
  }

  lemma SplitTag(major: string, minor: string)
    requires ':' !in major
    ensures SplitFirst(major + ":" + minor, ':') == Some((major, minor))
  {
    var tag := major + ":" + minor;
    assert tag == major + [':'] + minor;
    IndexOfAppend(major, ':', minor);
    assert tag[..|major|] == major && tag[|major| + 1..] == minor;
  }

  /** For a `major:minor` tag of plain segments the download URL is the API URL, the two segments
      and `download`, one slash apart; the resolved tag is the build's values joined by `:`. */
  lemma PaperUrlShape(major: string, minor: string, remote: Remote, notFound: Error)
    requires ':' !in major && PlainSegment(major) && PlainSegment(minor)
    requires major + ":" + minor != "latest"
    requires PaperDownloadUrl(major + ":" + minor, remote, PaperApiUrl, notFound).Ok?
    ensures var testUrl := PaperApiUrl + "/" + major + "/" + minor;
      && testUrl in remote.paperBuilds
      && PaperDownloadUrl(major + ":" + minor, remote, PaperApiUrl, notFound)
           == Ok((testUrl + "/download", Join(":", remote.paperBuilds[testUrl])))
  {
    SplitTag(major, minor);
    assert PaperApiUrl[|PaperApiUrl| - 1] == 'r';
    JoinTwoSegments(PaperApiUrl, major, minor);
    JoinDownload(PaperApiUrl + "/" + major + "/" + minor);
  }

  /** A paper tag without `:` other than `latest` fails to unpack. */
  lemma PaperBadTag(tag: string, remote: Remote, baseUrl: string, notFound: Error)
    requires tag != "latest" && ':' !in tag
    ensures PaperDownloadUrl(tag, remote, baseUrl, notFound) == Err(ValueError)
  {
  }

  // ---------------------------------------------------------------------------------------------
  // Any server type

  /** What `get_download_url` returns or raises: the tag is `type:version`; an unknown type raises
      `unsupported`, a paper build that is not found raises `unsupported` too. */
  function DownloadUrlSpec(serverTag: string, remote: Remote, manifestUrl: string, unsupported: Error): Result<(string, string)> {
    match SplitFirst(serverTag, ':')
    case None => Err(AssertionError)
    case Some(tv) =>
      if tv.0 == "paper" then PaperDownloadUrl(tv.1, remote, PaperApiUrl, unsupported)
      else if tv.0 == "vanilla" then VanillaSpec(tv.1, remote, manifestUrl)
      else Err(unsupported)
  }

  /** `get_download_url`; `unsupported` is the class of the exceptions this revision raises itself
      (`ValueError`). */
  method DownloadUrl(serverTag: string, remote: Remote, unsupported: Error) returns (r: Result<(string, string)>)
    ensures r == DownloadUrlSpec(serverTag, remote, VanillaManifestUrl, unsupported)
  {
    if ':' !in serverTag {
      return Err(AssertionError);
    }
    var tv := SplitFirst(serverTag, ':').value;
    if tv.0 == "paper" {
      r := PaperDownloadUrl(tv.1, remote, PaperApiUrl, unsupported);
    } else if tv.0 == "vanilla" {
      r := VanillaDownloadUrl(tv.1, remote, VanillaManifestUrl);
    } else {
      r := Err(unsupported);
    }
  }

  /** Every resolved tag names its server type first: `vanilla:` or `paper:`-style build values. */
  lemma DownloadTagType(serverTag: string, remote: Remote, unsupported: Error)
    requires DownloadUrlSpec(serverTag, remote, VanillaManifestUrl, unsupported).Ok?
    ensures SplitFirst(serverTag, ':').Some?
    ensures SplitFirst(serverTag, ':').value.0 in {"paper", "vanilla"}
    ensures SplitFirst(serverTag, ':').value.0 == "vanilla" ==>
              StartsWith(DownloadUrlSpec(serverTag, remote, VanillaManifestUrl, unsupported).value.1, "vanilla:")
  {
  }

  // ---------------------------------------------------------------------------------------------
  // The jar cache

  /** The tag of a jar pulled from a literal URL: `other/` and the first twelve hex digits of the
      URL's SHA-1 digest (`urlHash`). */
  function UrlTag(urlHash: string): (r: string)
    ensures StartsWith(r, "other/") && |r| <= 18
    ensures |urlHash| >= 12 ==> |r| == 18
  {
    "other/" + Take(urlHash, 12)
  }

  /** Where a jar with tag `tag` is cached: `<home>/jars/<tag with : as />.jar`. */
  function CachePath(home: Path, tag: string): Path {
    home + ["jars"] + Split(ReplaceChar(tag, ':', '/') + ".jar", '/')
  }

  lemma {:induction false} SplitTwo(a: string, b: string)
    requires '/' !in a && '/' !in b
    ensures Split(a + "/" + b, '/') == [a, b]
  {
    assert a + "/" + b == a + ['/'] + b;
    IndexOfAppend(a, '/', b);
    assert (a + "/" + b)[..|a|] == a && (a + "/" + b)[|a| + 1..] == b;
  }

  /** A `type:version` tag is cached as `<home>/jars/<type>/<version>.jar`. */
  lemma CachePathOfTag(home: Path, kind: string, version: string)
    requires ':' !in kind && '/' !in kind && ':' !in version && '/' !in version
    ensures CachePath(home, kind + ":" + version) == home + ["jars", kind, version + ".jar"]
  {
    var t := kind + ":" + version;
    assert ReplaceChar(t, ':', '/') == kind + "/" + version by {
      var r := ReplaceChar(t, ':', '/');
      assert |r| == |kind + "/" + version|;
      forall i | 0 <= i < |r| ensures r[i] == (kind + "/" + version)[i] {
        if i < |kind| { assert t[i] == kind[i]; }
        else if i > |kind| { assert t[i] == version[i - |kind| - 1]; }
      }
    }
    assert kind + "/" + version + ".jar" == kind + "/" + (version + ".jar");
    SplitTwo(kind, version + ".jar");
  }

  /** `pull` of src/mcctl/web.py: resolve the source (or hash a literal URL), then download into
      the cache unless the jar is cached already; the result is the cached path and the tag. A
      failed download may leave the directories it created. */
  method Pull(fs: FileSystem, home: Path, source: string, literalUrl: bool, urlHash: string, remote: Remote, raised: Error)
      returns (r: Result<(Path, string)>)
    modifies fs
    ensures fs.modes.Keys >= old(fs.modes).Keys
    ensures var src := if literalUrl then Ok((source, UrlTag(urlHash)))
                       else DownloadUrlSpec(source, remote, VanillaManifestUrl, raised);
      match src
      case Err(e) => r == Err(e) && unchanged(fs)
      case Ok(ut) =>
        var dest := CachePath(home, ut.1);
        if dest in old(fs.files) then r == Ok((dest, ut.1)) && unchanged(fs)
        else
          && (r.Ok? ==> && r.value == (dest, ut.1) && ut.0 in remote.bodies
                        && fs.files == old(fs.files)[dest := remote.bodies[ut.0]]
                        && Parent(dest) in fs.dirs)
          && (r.Err? ==> fs.files == old(fs.files))
          && old(fs.dirs) <= fs.dirs <= old(fs.dirs) + Prefixes(Parent(dest))
  {
    var url, tag;
    if literalUrl {
      url, tag := source, UrlTag(urlHash);
    } else {
      var resolved := DownloadUrl(source, remote, raised);
      if resolved.Err? {
        return Err(resolved.error);
      }
      url, tag := resolved.value.0, resolved.value.1;
    }
    var dest := CachePath(home, tag);
    if dest in fs.files {
      return Ok((dest, tag));
    }
    var made := fs.CreateDirs(Parent(dest));
    if made.Err? {
      return Err(made.error);
    }
    if url !in remote.bodies {
      return Err(HttpError);
    }
    var written := fs.WriteText(dest, remote.bodies[url]);
    if written.Err? {
      return Err(written.error);
    }
    r := Ok((dest, tag));
  }

  // ---------------------------------------------------------------------------------------------
  // download

  /** `download(url, dest)` once the response has arrived: it opens `dest` itself for writing, so
      a directory there is `IsADirectoryError` and a missing parent `FileNotFoundError`; it
      returns `None`, never the path of the saved file. */
  function DownloadTo(dest: Path, dirs: set<Path>): (r: Result<()>)
    ensures dest in dirs ==> r == Err(IsADirectoryError)
    ensures r.Ok? ==> Parent(dest) in dirs
  {
    if dest in dirs then Err(IsADirectoryError)
    else if Parent(dest) !in dirs then Err(FileNotFoundError)
    else Ok(())
  }

  /** The plugin installs call `download(source, tmp_dir)` with the temporary directory as the
      destination: as written, every such download fails before anything is saved. */
  lemma DownloadIntoDirFails(tmpDir: Path, dirs: set<Path>)
    requires tmpDir in dirs
    ensures DownloadTo(tmpDir, dirs) == Err(IsADirectoryError)
  {
  }
}
