# mcctl core, modelled in Dafny

mcctl is a command-line manager for Minecraft server instances on a Linux host. Each instance
lives below `<home>/instances/<name>` and runs as the systemd unit `<prefix><name>`. Server jars
are cached below `<home>/jars`, under their type tag (`vanilla:1.16.4` is cached as
`jars/vanilla/1.16.4.jar`).

This project models the parts of mcctl that decide what happens and proves what each of them
promises:

- the `KEY=VALUE` properties store: reading, merging, rewriting, and the EULA dialog;
- resolving server tags to download URLs and the jar cache;
- instance storage: sorted walks, relative-path selection, the jar listing, removing instances and
  jars, the log tail of `inspect`, and what `export` archives;
- the systemd adapter and the readiness probe;
- the plugin manager, in its current (`plugin.py`) and older (`package.py`) forms;
- `create`, which puts a new instance together;
- the start-up tick loop of `preStart`;
- the effective-id switching of `run_as`, `elevate` and `demote`.

The outside world enters as explicit state or as parameters:

- The files and directories form the class `Host.FileSystem`, which the operations change in
  place.
- The systemd manager is the class `Service.Systemd`: active units, enabled units and the log of
  `systemctl` commands run.
- A plugins folder is the class `Plugin.PluginDir`, with its entries and a log of events.
- The process ids form the class `Perms.Process`.
- An interactive prompt takes the operator's typed answers as a sequence. When the sequence runs
  out, the prompt raises `EOFError`.
- The remote version manifest, the paper API and the download bodies are a `Web.Remote` value.
- The Minecraft status query is a `Status.Probe`.
- Each tick of a started server is a `Proc.Tick` observation.
- The similarity ratio of difflib, the SHA-1 digest of a URL, archive contents and the password
  database are parameters.

Python exceptions are modelled as `Result` values whose `Err` holds the exception class.

The modules follow the source files:

| Source file | Module |
|---|---|
| `config.py` | `Config` |
| `modules/config.py` | `LegacyConfig` |
| `web.py` | `Web` |
| `modules/web.py` | `LegacyWeb` |
| `storage.py` | `Storage` |
| `modules/storage.py` | `LegacyStorage` |
| `service.py` | `Service` |
| `modules/service.py` | `LegacyService` |
| `plugin.py` | `Plugin` |
| `package.py` | `Package` |
| `common.py` | `Common` |
| `status.py` | `Status` |
| `perms.py` | `Perms` |
| `proc.py` | `Proc` |

A few modules support them:

- `Host` holds the file system, paths and prompts.
- `Text` holds the Python string operations used.
- `Order` holds Python's ordering of strings and paths, and `sorted`.
- `Wrappers` holds `Option`, `Result` and the exception classes.

## Model

| member | source | states |
|---|---|---|
| Config.Get | src/mcctl/config.py:44 | `d.get(k)` is absent exactly when `k` is not a key, and a found value is the one stored with `k` |
| Config.Put | src/mcctl/config.py:44 | `d[k] = v` keeps the dict the same size when `k` is already a key; otherwise it grows by one |
| Config.PutGet | src/mcctl/config.py:44 | `d[k] = v` changes the lookup of `k` to `v` and no other lookup |
| Config.PutKeys | src/mcctl/config.py:44 | `d[k] = v` keeps the key order; a new key is appended at the end |
| Config.PutDistinct | src/mcctl/config.py:44 | storing into a dict keeps its keys distinct |
| Config.PropertiesToDict | src/mcctl/config.py:22-48 | the dict-filling loop computes the reference parse `Parse` of the lines |
| Config.ParseErr | src/mcctl/config.py:39-47 | parsing fails, with `ValueError`, exactly when some line is neither a comment (once right-stripped) nor contains `=`; a blank line is such a line |
| Config.ParseGet | src/mcctl/config.py:40-44 | after a successful parse, each key has the value of the last line that sets it, split at the first `=` |
| Config.ParseFromDistinct | src/mcctl/config.py:38-48 | a parse result has distinct keys, as a Python dict does |
| Config.ParseContentClean | src/mcctl/config.py:40-44 | whatever a file parses to has keys without `=`, line breaks or a leading `#`, values without line breaks or trailing white space, and distinct keys |
| Config.GetProperties | src/mcctl/config.py:51-65 | reads the file's lines and parses them; a missing path is `FileNotFoundError` and a directory is `IsADirectoryError` |
| Config.SetProperties | src/mcctl/config.py:68-89 | touches a missing file, then rewrites it as `Rewrite` of its old text; a file that does not parse is left as it was (touched); no directory changes |
| Config.UpdateGet | src/mcctl/config.py:81-82 | merge law for values: after `update`, a key mentioned in the new entries has the new value, and any other key keeps its old one |
| Config.UpdateKeys | src/mcctl/config.py:81-86 | merge law for order: old keys keep their order, and new keys follow in the order they were given |
| Config.UpdateDistinct | src/mcctl/config.py:82 | an update keeps the keys distinct |
| Config.UpdateClean | src/mcctl/config.py:82 | an update of clean dicts is clean |
| Config.UpdateNoop | src/mcctl/config.py:82 | updating with entries the dict already holds changes nothing |
| Config.UpdateTwice | src/mcctl/config.py:82 | updating twice with the same dict is updating once |
| Config.SerializeLines | src/mcctl/config.py:84-88 | the text `'\n'.join(k=v) + '\n'` of a non-empty clean dict reads back as one `k=v\n` line per entry |
| Config.RoundTrip | src/mcctl/config.py:40-47 | a non-empty dict with clean keys and values and distinct keys reads back exactly as written |
| Config.EmptyDictDoesNotRoundTrip | src/mcctl/config.py:88 | an empty dict is written as a lone `"\n"`, which fails to parse with `ValueError` |
| Config.RewriteMerge | src/mcctl/config.py:80-89 | after `setProperties` the file reads as the old dict overridden by the new entries; other keys are kept in order, and comment lines are gone |
| Config.RewriteIdempotent | src/mcctl/config.py:81-89 | applying the same properties a second time leaves the file the first write left |
| Config.SettingLine | src/mcctl/config.py:108-112 | the line the dialog asks about is the first line not starting with `#`, and there is none exactly when every line starts with `#` |
| Config.EulaDialog | src/mcctl/config.py:104-123 | covers both EULA dialogs, by their accept and decline words. A missing `eula.txt` is `AssertionError`. With no setting line the result is `None` and nothing changes. Otherwise the answers are re-asked until one is a word in lower case. The result is true iff that word is the accepting one. On accept the file becomes the leading comments plus the setting line with `eula=false` replaced, and later lines are truncated. On decline the file is untouched |
| Config.EulaLoop | src/mcctl/config.py:108-123 | the loop over the file's lines: comment lines are kept, and the first other line is the one asked about |
| Config.AcceptEula | src/mcctl/config.py:92-123 | the dialog with the words `true` and `false` |
| Config.AcceptFlipsFlag | src/mcctl/config.py:119 | accepting a standard `eula=false` line leaves the comment lines before it and `eula=true` |
| LegacyConfig.AcceptEula | src/mcctl/modules/config.py:56-76 | the dialog with the words `accept` and `abort`: true iff the settled answer is `accept`, and only the setting line is rewritten, the rest truncated |
| Web.StripPlain | src/mcctl/web.py:113-114 | a segment with no slash at either end is left alone by `strip('/')` |
| Web.JoinUrlPlain | src/mcctl/web.py:102-114 | with no stray slashes, `join_url` is the base and the parts, each separated by one `/` |
| Web.JoinUrlTrailingSlash | src/mcctl/web.py:113-114 | trailing slashes on the base do not change the joined URL |
| Web.FirstUrl | src/mcctl/web.py:136-139 | the URL of the first manifest entry whose id matches; none exactly when no entry matches |
| Web.FindVersionUrl | src/mcctl/web.py:136-139 | the search loop with `break` finds `FirstUrl` |
| Web.VanillaDownloadUrl | src/mcctl/web.py:117-142 | the method computes `VanillaSpec`: `latest` and `latest-snap` resolved from the manifest, the first matching entry, and an unbound URL when none matches |
| Web.VanillaResolves | src/mcctl/web.py:131-141 | a resolved vanilla download is the server jar of the first manifest entry with the resolved id, and its tag is `vanilla:` plus that id |
| Web.JoinTwoSegments | src/mcctl/web.py:166 | the paper test URL is the API URL, major and minor, one slash apart |
| Web.JoinDownload | src/mcctl/web.py:173 | the paper download URL is the test URL plus `/download` |
| Web.SplitTag | src/mcctl/web.py:165 | a `major:minor` tag splits at its first colon |
| Web.PaperUrlShape | src/mcctl/web.py:160-173 | a paper `major:minor` tag gives `<api>/<major>/<minor>/download`, and the resolved tag is the build's values joined by `:` |
| Web.PaperBadTag | src/mcctl/web.py:165 | a paper tag other than `latest` without `:` fails to unpack, with `ValueError` |
| Web.DownloadUrl | src/mcctl/web.py:176-197 | the method computes `DownloadUrlSpec`: a tag without `:` is `AssertionError`; it splits at the first `:`; `paper` and `vanilla` dispatch, and any other type raises |
| Web.DownloadTagType | src/mcctl/web.py:189-196 | a resolved tag had a `:` and the type `paper` or `vanilla`, and a vanilla result's tag starts with `vanilla:` |
| Web.UrlTag | src/mcctl/web.py:218-220 | a literal-URL tag is `other/` and at most 12 characters of the digest; exactly 12 for a full digest |
| Web.SplitTwo | src/mcctl/web.py:225 | splitting `a/b` at `/` gives both names back |
| Web.CachePathOfTag | src/mcctl/web.py:225 | a `type:version` tag is cached as `<home>/jars/<type>/<version>.jar` |
| Web.Pull | src/mcctl/web.py:200-233 | the source is resolved, or a literal URL hashed, and a failure changes nothing. A jar already cached is returned with its tag and nothing changes. Otherwise a successful download stores the body at the cache path, and the result is `(path, tag)`. Only the directories above the cache path may be added |
| LegacyWeb.Pull | src/mcctl/modules/web.py:110-131 | the legacy pull has the same cache semantics and returns only the path. An unknown server type raises a bare `Exception` |
| Order.PathLeTotal | src/mcctl/storage.py:55 | Python's path order is total |
| Order.PathLeAntisym | src/mcctl/storage.py:55 | Python's path order is antisymmetric |
| Order.PathLeTrans | src/mcctl/storage.py:55 | Python's path order is transitive |
| Order.SortedUnique | src/mcctl/storage.py:55 | two strictly sorted lists of the same paths are the same list, so `sorted` is determined by the set |
| Order.SortedCard | src/mcctl/storage.py:55 | a strictly sorted list of paths holds as many distinct paths as it has entries, so `sorted` lists no path twice |
| Order.SortPaths | src/mcctl/storage.py:55 | `sorted(...)` of a set of paths is the strictly increasing list of exactly those paths |
| Host.FileSystem.CreateDirs | src/mcctl/storage.py:126-133 | `mkdir(parents=True, exist_ok=True)`: an existing directory is fine, and a file at the path or above it is an error. Otherwise the directory and its missing parents now exist. Only the directory itself gets 0o750; the parents get the default mode. No file changes |
| Host.FileSystem.Copy | src/mcctl/storage.py:136-149 | `shutil.copy`: the content is copied, and onto a directory the file keeps its name. A missing source is `FileNotFoundError` and a directory source `IsADirectoryError`; a copy that would land on its own source is `SameFileError`. Each failure changes nothing |
| Host.FileSystem.RemoveTree | src/mcctl/storage.py:219 | `rmtree` removes the directory and everything below it and nothing else; it is an error on a file or a missing path |
| Host.FileSystem.Unlink | src/mcctl/storage.py:246 | `unlink` removes exactly the file; on a directory or a missing path it fails with nothing changed |
| Host.Answer | src/mcctl/storage.py:211-215 | the answer a re-asking prompt settles on: the first typed answer whose lower case is one of the words, else `EOFError` |
| Host.Ask | src/mcctl/storage.py:211-215 | the prompt loop computes `Answer` |
| Storage.Descendants | src/mcctl/storage.py:55 | `rglob("*")` yields exactly the files and directories strictly below the base |
| Storage.ChildPaths | src/mcctl/storage.py:45-55 | `get_child_paths` is the sorted list of exactly the descendants |
| Storage.PyIndex | src/mcctl/storage.py:121 | Python indexing with negative indices: defined exactly for `-len <= idx < len` |
| Storage.SelectErr | src/mcctl/storage.py:119-122 | the selection fails, with `IndexError`, exactly when some walked path has no part at the filter index |
| Storage.SelectMembers | src/mcctl/storage.py:117-123 | a selected path is a walked path minus the base's parts whose part at the index contains the filter, and every such path is selected |
| Storage.SelectSorted | src/mcctl/storage.py:119-122 | the selection keeps the sorted order of the walk |
| Storage.PathLtDropPrefix | src/mcctl/storage.py:120 | removing the common base keeps two paths in the same order |
| Storage.RelativePaths | src/mcctl/storage.py:97-123 | `get_relative_paths` gives the descendants relative to the base, in sorted order, kept iff their part at the index contains the filter; it is `IndexError` when some part is missing |
| Storage.EndPartsExist | src/mcctl/storage.py:67 | selecting by the first or the last relative part never fails |
| Storage.Listing | src/mcctl/storage.py:68-70 | each printed tag is the tag of a cached jar whose relative path contains the filter |
| Storage.JarList | src/mcctl/storage.py:58-70 | `get_jar_list` prints the tags of the cached `.jar` paths containing the filter, in sorted order |
| Storage.ListedTag | src/mcctl/storage.py:70 | a jar cached by `pull` under a tag free of `/` and `.jar` is listed under that same tag |
| Storage.Remove | src/mcctl/storage.py:196-219 | `remove` requires the instance to exist and its unit to be neither enabled nor active, checked before any prompt, else `AssertionError`. With `confirm` the answer is asked and re-asked. The tree is removed only on exactly `y`: `Y` ends the prompt but keeps the instance. `confirm=False` always deletes. Nothing else changes |
| Storage.UpperYKeeps | src/mcctl/storage.py:214-218 | an upper-case `Y` satisfies the prompt loop but is not the deleting answer |
| Storage.RemoveJar | src/mcctl/storage.py:222-248 | `all` targets the whole `jars` directory; any other tag targets its cache path. The target must exist, else `AssertionError`. Only an answer of exactly `y` deletes: `unlink` for a tag, `rmtree` for `all` |
| Storage.Reads | src/mcctl/storage.py:266-277 | one read outcome per log |
| Storage.ReadsAt | src/mcctl/storage.py:266-277 | reading a `.gz` log decompresses it, and a bad stream becomes `OSError`. A directory raises, and on the first iteration the `finally` clause turns that into `UnboundLocalError` |
| Storage.Inspect | src/mcctl/storage.py:251-281 | `inspect` computes `InspectOutput`: a negative limit is `AssertionError`; otherwise the logs are read newest first and the last `limit` lines are printed |
| Storage.ReadLogs | src/mcctl/storage.py:265-279 | the loop reads newest first, prepends each log's lines and stops once at least `limit` lines are held |
| Storage.GatherTail | src/mcctl/storage.py:265-279 | on readable logs the loop ends holding a tail of all the lines: either all of them or at least `limit` |
| Storage.ReadableReads | src/mcctl/storage.py:266-273 | readable logs read without error |
| Storage.LastNOfTail | src/mcctl/storage.py:280 | `lines[-limit:]` of a long enough tail is that of all lines |
| Storage.InspectTail | src/mcctl/storage.py:261-281 | with a positive limit and readable logs, `inspect` prints the last `limit` lines of all logs taken oldest first |
| Storage.InspectNewest | src/mcctl/storage.py:278-280 | with limit 0 only the newest log is read, and all its lines are printed |
| Storage.Export | src/mcctl/storage.py:152-193 | the archive holds the instance's descendants whose first relative part contains the world filter, in sorted order, with their contents. The filter is `level-name` of `server.properties` with `world_only`; a missing key is `KeyError`. `compress` selects DEFLATED, otherwise STORED |
| LegacyStorage.HomeField | src/mcctl/modules/storage.py:27-31 | `getHomePath` as written: the sixth field of the first passwd line containing the name anywhere. This is `None` exactly when no line contains it, and `IndexError` for a short line |
| LegacyStorage.GetHomePath | src/mcctl/modules/storage.py:27-31 | the loop with its early return computes `HomeField` of the file's lines |
| LegacyStorage.FirstMatch | src/mcctl/modules/storage.py:29-31 | the loop over the lines computes `HomeField` |
| LegacyStorage.SubstringMatchPicksOtherUser | src/mcctl/modules/storage.py:30 | for a name that is a prefix of another user's name, listed second, the substring test returns the other user's home; the exact lookup returns the user's own |
| LegacyStorage.SampleFields | src/mcctl/modules/storage.py:31 | a line `user:::::home` splits into six fields with the home last |
| LegacyStorage.SplitFields | src/mcctl/modules/storage.py:31 | splitting a joined line at `:` gives its fields back when none holds `:` |
| LegacyStorage.HomeFieldExact | src/mcctl/storage.py:41-42 | the intended lookup: the home field of the first line whose user-name field equals the name, `None` exactly when no line's user field is the name |
| LegacyStorage.WorldDirs | src/mcctl/modules/storage.py:46 | the glob `world*/**` yields exactly the directories below the base whose first part below it starts with the world name |
| LegacyStorage.ChildPaths | src/mcctl/modules/storage.py:41-49 | `getChildPaths` lists exactly those directories, relative to the base's parent, so they keep the base's last part. A missing world name means all directories |
| LegacyStorage.KeepFromInjective | src/mcctl/modules/storage.py:44-47 | below a non-empty base, distinct directories give distinct entries |
| LegacyStorage.DeleteAnswer | src/mcctl/modules/storage.py:79-83 | `delete`'s prompt settles on `y` or `n`, or `EOFError` |
| LegacyStorage.RawAnswer | src/mcctl/modules/storage.py:81-82 | the re-asking loop compares answers exactly as typed: it settles on the first answer that is exactly `y` or `n` |
| LegacyStorage.Delete | src/mcctl/modules/storage.py:78-87 | the instance tree is removed iff the settled answer is `y`; a missing home directory fails building the path with `TypeError` |
| LegacyStorage.DeleteCase | src/mcctl/modules/storage.py:79-83 | only the first answer is lowered: a first `Y` deletes, while a `Y` after a wrong answer is asked about again |
| LegacyStorage.ExportSelection | src/mcctl/modules/storage.py:56-67 | the legacy export walks the `world*` directories, or every directory when not `worldOnly`. An empty selection fails in `max` with `ValueError` |
| Service.Systemd.constructor | src/mcctl/service.py:28-61 | the systemd state starts with the given active and enabled units and no commands |
| Service.IsActive | src/mcctl/service.py:28-43 | true iff `systemctl is-active <prefix><instance>` exits with 0; it runs that one command and changes no unit |
| Service.IsEnabled | src/mcctl/service.py:46-61 | true iff `systemctl is-enabled <prefix><instance>` exits with 0; it runs that one command and changes no unit |
| Service.Apply | src/mcctl/service.py:76-84 | runs the action on the unit; a non-zero exit is `AssertionError`. After start, restart or stop the unit is checked to be running exactly when the action was not `stop`. Enable and disable skip the check |
| Service.SetStatus | src/mcctl/service.py:64-84 | an unknown action fails the assert and changes nothing. A known action runs `systemctl <action> <prefix><instance>`; a non-zero exit fails with the unit sets unchanged. Otherwise enable and disable change only that unit's enabled flag, start, restart and stop set its running state to what systemd reports and query it once more, and success means the unit runs after start or restart and is stopped after stop. No other unit changes |
| LegacyService.SetStatus | src/mcctl/modules/service.py:42-52 | no action check: any action runs `systemctl <action> mcserver@<instance>`. A non-zero exit fails with the unit sets unchanged. Otherwise enable and disable change only that unit's enabled flag, start, restart and stop set its running state to what systemd reports and are checked against `action != "stop"`, and other actions change nothing. No other unit changes |
| LegacyService.InstanceList | src/mcctl/modules/service.py:55-78 | with `all`, one row per instance in directory order; a known name gives its own row; an unknown name gives only the header |
| LegacyService.AllRows | src/mcctl/modules/service.py:64-68 | the loop concatenates one row per instance |
| LegacyService.RowsAreLines | src/mcctl/modules/service.py:64-78 | the table for `all` has exactly one line per instance |
| LegacyService.RowBody | src/mcctl/modules/service.py:66-75 | a row ends in its only line break |
| Plugin.PluginDir.constructor | src/mcctl/plugin.py:41-47 | the plugins folder starts with the given entries and directory flags and no events |
| Plugin.Suffix | src/mcctl/plugin.py:63-68 | `PurePath.suffix`: empty, or a final `.xyz` that is not the whole name |
| Plugin.JarNames | src/mcctl/plugin.py:107-108 | the `.jar` entries are entries of the folder |
| Plugin.TakeMatches | src/mcctl/plugin.py:111-112 | one search term takes the remaining names that contain it, ignoring case |
| Plugin.ResolveNames | src/mcctl/plugin.py:107-112 | the selection loop computes `Resolved`: the first term uses up the generator of jar names |
| Plugin.LaterTermsIgnored | src/mcctl/plugin.py:107-112 | a second search term selects nothing, however well it matches, while the documented selection would take it |
| Plugin.ResolvedIsFirstTerm | src/mcctl/plugin.py:107-112 | the as-written selection is part of the documented one, and the two agree for a single search term |
| Plugin.EachOnceVisits | src/mcctl/plugin.py:119-121 | going through a set visits exactly its members, each once |
| Plugin.UnlinkAll | src/mcctl/plugin.py:119-121 | the unlink loop leaves the entries minus the selection, and unlinks each selected name once |
| Plugin.RemoveSelected | src/mcctl/plugin.py:113-128 | the shared removal step: when something is selected and forced or confirmed, the selection is unlinked between the surrounding events; otherwise nothing changes |
| Plugin.Uninstall | src/mcctl/plugin.py:84-128 | a missing instance or plugins folder is `FileNotFoundError`. It returns and removes the first term's `.jar` matches when forced or confirmed, else the empty set. With `restart` the stop precedes the unlinks and the start follows them |
| Plugin.AboveTrans | src/mcctl/plugin.py:152-153 | the ranking of close matches is transitive |
| Plugin.AboveTotal | src/mcctl/plugin.py:152-153 | the ranking of close matches is total |
| Plugin.TopExists | src/mcctl/plugin.py:152-153 | every non-empty set of candidates has a best one |
| Plugin.Good | src/mcctl/plugin.py:152-153 | the candidates scoring at least 0.6 |
| Plugin.AboveAsym | src/mcctl/plugin.py:152-153 | no candidate ranks both above and below another |
| Plugin.Best | src/mcctl/plugin.py:152-153 | a non-empty pool has a candidate ranked above all the others |
| Plugin.TopFromChar | src/mcctl/plugin.py:152-153 | the top-`k` selection is the only subset of its size whose members all rank above the rest |
| Plugin.TakeBest | src/mcctl/plugin.py:152-153 | the loop that takes candidates from the top keeps the two best, or all when there are fewer, and that is the top-2 selection |
| Plugin.CloseMatches | src/mcctl/plugin.py:152-153 | `get_close_matches(word, candidates, 2)` returns the two best-ranked candidates with ratio at least 0.6, or all of them when there are fewer. It returns none exactly when no candidate reaches 0.6, and it equals the reference selection `Top` |
| Plugin.OldVersions | src/mcctl/plugin.py:149-153 | the proposed names are exactly the union, over the new plugins, of each one's `get_close_matches` among the old plugins (`Proposed`). Each member lies within 0.6 of some new plugin; none are proposed exactly when no old plugin is close to any new one; at most `2·|new_plugins|` in all |
| Plugin.AutoUninstall | src/mcctl/plugin.py:131-166 | never proposes a newly installed name. When forced or confirmed, it removes exactly `Proposed`, the union of each new plugin's close matches among the other installed jars; a refused prompt removes nothing; listing a missing folder raises |
| Plugin.Yield | src/mcctl/plugin.py:63-74 | a source that is neither `.zip` nor `.jar` yields nothing |
| Plugin.Localise | src/mcctl/plugin.py:51-58 | the download loop replaces each URL among the de-duplicated sources by its downloaded file and keeps the others |
| Plugin.InstallAll | src/mcctl/plugin.py:59-74 | a `.zip` goes to the archive installer and a `.jar` to the bare one. Success holds iff every file has one of those suffixes; otherwise `ValueError`, keeping what was installed before. The installed set is what the files yield |
| Plugin.ProducedMono | src/mcctl/plugin.py:59-74 | more files yield more plugins |
| Plugin.InstallFiles | src/mcctl/plugin.py:59-78 | the install loop on the folder, then the restart event only when `restart` is set |
| Plugin.Install | src/mcctl/plugin.py:28-81 | fails before touching anything for a missing instance or plugins folder (`FileNotFoundError`) or empty sources (`ValueError`). Otherwise it de-duplicates, downloads and installs; the restart comes after the installs. With `autoupgrade` and a confirmed prompt it removes exactly the close matches (`Proposed`) of what was installed among the other jars, and nothing when the prompt is refused |
| Plugin.GetPlugins | src/mcctl/plugin.py:169-186 | exactly the `.jar` entries, each once; `FileNotFoundError` without a plugin folder |
| Plugin.PluginLines | src/mcctl/plugin.py:201-210 | every printed row contains the filter and is the row of some instance |
| Plugin.ListPlugins | src/mcctl/plugin.py:189-210 | prints the header, then each instance's row that contains the filter, in order |
| Plugin.SupportColumn | src/mcctl/plugin.py:207-208 | the status column says `supported` exactly when the instance's plugin list is non-empty |
| Plugin.ListedIfMatching | src/mcctl/plugin.py:209-210 | every instance whose row contains the filter is listed |
| Package.Install | src/mcctl/package.py:7-51 | a missing instance or plugins folder is `FileNotFoundError`; there is no empty-sources check, and no sources give `Ok({})`. Dispatch is as in `plugin.py`, and the restart follows all installs only when asked |
| Package.Uninstall | src/mcctl/package.py:54-94 | the same first-term selection; with `restart` a single restart comes before the unlinks; without a match or a confirmation nothing is removed |
| Status.SimpleStatusOf | src/mcctl/status.py:27-49 | a reply passes through; nothing listening, a connection error or any other `OSError` (what `socket.error` names) gives online 0, proto -1 and version `n/a`; only an error outside the `OSError` family raises |
| Status.ReadyOf | src/mcctl/status.py:64-71 | ready iff the server answers with a protocol above -1; false when nothing listens or the probe raises an `OSError`; it raises exactly when `get_simple_status` does, and agrees with the protocol that shows |
| Status.OSErrorIsOffline | src/mcctl/status.py:43-69 | every `OSError` the probe raises reads as an unreachable server: the offline status, and not ready |
| Status.DigitsOfDecimal | src/mcctl/status.py:63 | the decimal digits of a number read back as that number |
| Status.PortRoundTrip | src/mcctl/status.py:63 | `int(str(port))` is the port |
| Status.IsReady | src/mcctl/status.py:52-71 | `true` only when a server answered with a protocol above -1; an `OSError` from the probe is `false` |
| Status.IsReadyPort | src/mcctl/status.py:61-71 | with `server-port=<port>` in a readable `server.properties`, readiness is the probe's answer on that port |
| Perms.SetEgid | src/mcctl/perms.py:42 | `setegid` follows the Linux rule: root may set any group, anyone else the real, effective or saved group |
| Perms.SetEuid | src/mcctl/perms.py:43 | `seteuid` follows the Linux rule: root may set any user, anyone else the real, effective or saved user |
| Perms.SetGid | src/mcctl/perms.py:98 | `setgid` from root sets all group ids; otherwise it sets only the effective one, to the real or saved group |
| Perms.SetUid | src/mcctl/perms.py:99 | `setuid` from root sets all user ids; otherwise it sets only the effective one, to the real or saved user |
| Perms.SetEidsOf | src/mcctl/perms.py:41-45 | returns the effective ids in force before the call and sets the new ones; from root it always succeeds |
| Perms.EidsCalls | src/mcctl/perms.py:42-43 | the group is set before the user |
| Perms.Process.SetEids | src/mcctl/perms.py:29-45 | `set_eids` on the process: the ids and the calls made are those of `SetEidsOf` and `EidsCalls` |
| Perms.Process.RunAs | src/mcctl/perms.py:48-60 | switch, run the block, switch back in `finally`: the ids and calls are those of `RunAsOf` |
| Perms.RunAsRestores | src/mcctl/perms.py:56-60 | from root, `run_as` always restores the ids it started with and passes on exactly the block's error |
| Perms.GroupBeforeUser | src/mcctl/perms.py:42-43 | dropping from root works group first, while user first leaves no right to change the group |
| Perms.ElevateArgv | src/mcctl/perms.py:63-81 | no re-exec when the real uid is already the user's, and `KeyError` for an unknown user. Otherwise the command is `sudo`, then `-u user` (left out for root), then the re-exec arguments |
| Perms.ReexecArgs | src/mcctl/perms.py:73-77 | `[executable, "-m", package] + argv[1:]` with a package, else `argv` unchanged |
| Perms.Process.SetIds | src/mcctl/perms.py:93-100 | `set_ids` changes the ids only when `getgid() + getuid() == 0`, in the calls setegid, seteuid, setgid, setuid |
| Perms.SetIdsOf | src/mcctl/perms.py:93-100 | from real root every id becomes the user's; otherwise nothing changes |
| Perms.DemotedStaysDemoted | src/mcctl/perms.py:93-100 | after `set_ids` for an ordinary user, neither `seteuid(0)` nor `setuid(0)` is allowed |
| Proc.PreStart | src/mcctl/proc.py:98-134 | the tick loop computes `PreStartSpec`, the reference recursion over the ticks |
| Proc.RunBound | src/mcctl/proc.py:122 | the loop never runs more than `killSec*4 + 1` ticks |
| Proc.TerminateOnce | src/mcctl/proc.py:120-127 | at most one terminate, sent on the first tick the watch file exists |
| Proc.KillEnds | src/mcctl/proc.py:128-129 | a kill is sent only on tick `killSec*4`, and a killed run is never a success |
| Proc.KillAtLastTick | src/mcctl/proc.py:120-129 | the kill is sent on tick `killSec*4` when the server has not exited before it and that tick does not take the terminate branch. This includes the run where a terminate was sent earlier and ignored |
| Proc.SuccessIsExit | src/mcctl/proc.py:130-132 | success means an exit seen on a tick where neither signal branch fired; a run without an exit is a failure |
| Proc.PreStartSummary | src/mcctl/proc.py:119-134 | for `killSec >= 0` the whole run has the tick bound, the single terminate, kills only on the last tick, and success only after an exit. A run without an exit before the last tick, whose last tick does not first send the terminate, ends with the kill |
| Proc.IgnoredTerminateIsKilled | src/mcctl/proc.py:120-129 | a server that ignores the terminate sent when the watch file appears is killed on the last tick: the signals are exactly terminate on tick 1, then kill on tick 4 |
| Proc.Attach | src/mcctl/proc.py:30-43 | `attach` succeeds iff the unit is active (`AssertionError` otherwise), and then runs `screen -r mc-<instance>` |
| Proc.ExecGuard | src/mcctl/proc.py:61-62 | `exec` starts with the same active check |
| Common.InstanceDir | src/mcctl/common.py:33 | the instance path lies two levels below home |
| Common.Child | src/mcctl/common.py:38 | a child path lies directly below its directory and has it as parent |
| Common.ChildrenDiffer | src/mcctl/common.py:38-47 | `server.jar`, `server.properties` and `jvm-env` are different files |
| Common.FirstStart | src/mcctl/common.py:40 | the server's first start writes the given files into the instance directory and changes nothing else |
| Common.Apply | src/mcctl/common.py:42-47 | on success the file holds its own old content (nothing, for a new file) with the properties merged in by `setProperties`, and no other file changes |
| Common.Configure | src/mcctl/common.py:41-47 | properties and memory are written only when given. The properties list is parsed by `propertiesToDict` and merged into the old content of `server.properties`, memory is merged as `MEM` into the old content of `jvm-env`, and nothing else changes |
| Common.Fetch | src/mcctl/common.py:35-39 | makes the directory, pulls the jar into the cache and copies it in as `server.jar`, and logs the steps that completed, in that order. A failing mkdir changes nothing, and before the copy no file outside the jar cache changes |
| Common.Create | src/mcctl/common.py:21-51 | an existing instance is `AssertionError`, with nothing changed. Otherwise the step log is a prefix of the plan: mkdir, pull, the copy to `server.jar`, the first start, the EULA prompt, then configure or remove. Success means every step completed. What a failure leaves behind is stated per step: the directory after mkdir, no file outside the cache changed before the copy, the jar after the copy, and the first-run files, unchanged, after a failed prompt. Accepted, the instance exists with its jar, and the given properties and memory are merged into `server.properties` and `jvm-env` as the first start left them, so the keys it wrote and the properties do not name survive. Declined, or with no EULA line, it is removed with `confirm=False`, and nothing is left at its path |
| Common.Settle | src/mcctl/common.py:40-51 | after the jar: the first start, the EULA prompt, then configure or remove, logged in that order. Until a removal nothing is taken away, and a failed prompt leaves the first-run files as written. Accepted, the properties and memory are merged into what the first start left in `server.properties` and `jvm-env` |
| Common.Finish | src/mcctl/common.py:41-51 | accepted, `server.properties` and `jvm-env` hold their content before this step with the properties and memory merged in, and nothing is taken away. Declined, `remove(confirm=False)` leaves nothing at the path, and a failed removal changes no file |
| Common.MemoryReadsBack | src/mcctl/common.py:46-47 | the memory setting written by `create` reads back as the `MEM` value of `jvm-env`, whatever the file held before |

## Left out

- Network and downloads: `rest_get`, `download` streaming, `reporthook` and `progress` are not modelled. The remote answers are a `Web.Remote` value, and a plugin download is a function from URL to local file.
- The SHA-1 digest of a literal URL is a parameter (`urlHash`); hashing is a foreign library.
- Plugin.CloseMatches: difflib's ratio is an uninterpreted function. Only the 0.6 cutoff and the choice of the two best matches are modelled; the `real_quick_ratio` and `quick_ratio` pre-filters, which only speed up the same choice, are not.
- `visuals.bool_selector` is the boolean `confirmed` parameter.
- `web.is_url`, `storage.install_compressed_plugin` and `storage.install_bare_plugin` are function parameters (`isUrl`, `archiveNames`, `bareName`). No shown file defines them. A downloaded file is required never to be a URL.
- `common.notified_set_status` is not defined by any shown file. It is modelled as a `StatusChange` event in the plugin folder's log, not as a systemd call.
- `storage.get_instance_path` and `storage.get_plugin_path` are the directory flags of `Plugin.PluginDir`. The folder's subdirectories are not told apart from its files.
- Plugin.Localise: the shown `web.download(url, dest)` opens `dest` for writing and returns None, so the call `web.download(source, tmp_dir)` of `plugin.py:56` would raise `IsADirectoryError` on the temporary directory. The model assumes a `download` that saves the file inside that directory and returns its path (the `download` parameter).
- Package.Install: the same holds for its call `web.download(source, tmp_dir)` at `package.py:32`.
- Service.SetStatus: `shlex.split` of `"systemctl <action> <unit>"` is modelled (`Service.Command`) for words without white space or quotes. An instance name or unit prefix holding them would be split into more words, or rejected, by `shlex`; the model keeps each as one word. The same holds for Service.IsActive and Service.IsEnabled.
- LegacyService.SetStatus: as for Service.SetStatus, and here the unchecked action may hold white space too; the model passes it on as one word.
- Plugin.Install: Python iterates the set `unique_files` while it replaces URLs in it, so which members the loop visits depends on the set's hash order. The model visits each original source once.
- `settings.cfgDict` is not part of this model: the systemd unit prefix and the home directory are parameters.
- LegacyStorage.GetHomePath is the only password-file parser. Everything else takes the home directory as a parameter, and `getpwnam` of the newer `storage.py` is not modelled.
- Common.Create:
  - It uses the pull that returns a path (`modules/web.py`). The newer `web.pull` returns a `(path, tag)` pair, which `common.py` would store whole.
  - It does not use the outcome of `preStart`. The files the server writes on its first start are the `firstRun` parameter.
  - It undoes nothing when a step fails; the step log says how far it got.
- Terminal output is not modelled: `print`, `sys.stdout` progress and the spinner of `visuals.py` and `modules/visuals.py`. The exceptions are the rows of `list_plugins` and the legacy instance table.
- `exec`'s screen stuffing and log polling are not modelled, nor `attach`'s `subprocess` run beyond the command line. `modules/proc.py`, `modules/interact.py`, `__main__.py`, `settings.py`, `__config__.py`, `__init__.py` and both `setup.py` files are not part of this model.
- `demote` of `proc.py` calls the same `setgid`/`setuid` pair that `Perms.SetIds` models. It is not modelled separately.
- `chown`, `rename`, zip writing, file sizes and timestamps in `storage.py` are not modelled. `export` is modelled up to the list of archive members. The same holds for the legacy `export` of `modules/storage.py`: its `stat()` sizes, the progress line and the archive written at a path relative to the working directory are not modelled; only its selection of files is.
- Real systemd, process signals and the kernel's setuid rules are state: the `Systemd` sets, `Tick` observations and the Linux id rules in `Perms`.
- Paths are lists of parts. pathlib normalisation (`..`, duplicate slashes) is not modelled.
- Status.PyInt: accepts white space, an optional sign and ASCII digits. Python's `int` also accepts underscores between digits (`"25_565"`) and non-ASCII decimal digits; the model reads those as `ValueError`.
- `str.lower()` is modelled on ASCII letters only.
- Floating point: the 0.6 cutoff is a `real`.
- The `isinstance(propertyList, list)` assert of `modules/config.py` holds by typing.
- `getProperties` and `setProperties` of `modules/config.py` are line for line those of `config.py`, so `Config` models both.
- Where the code and the documentation disagree, the model follows the code:
  - `web.pull`'s docstring says it returns a path; the code returns `(path, tag)`.
  - `create_dirs` gives mode 0o750 only to the last directory, not to the parents it creates.
  - `uninstall` uses only the first search term (`Plugin.ResolvedAll` states the documented selection).
- `storage.py` calls `service.is_enabled`, `service.is_active` and `config.get_properties`. These names are modelled by `isEnabled`, `isActive` and `getProperties`.
- `modules/service.py` calls `time.sleep` without importing `time`. The model treats the sleep as a delay and leaves it out.

## Findings

| source | as written | input that shows it | evidently intended | confidence | as-written member | corrected member |
|---|---|---|---|---|---|---|
| src/mcctl/modules/storage.py:30 | `getHomePath` takes the first `/etc/passwd` line that contains the user name anywhere, as a substring | the lines `mcserver:::::/srv/other` then `mc:::::/home/mc`, looked up for `mc`, give `/srv/other` | the user-name field must equal the name, as the `getpwnam` lookup of `storage.py:41-42` does | not executed | LegacyStorage.SubstringMatchPicksOtherUser | LegacyStorage.HomeFieldExact |
