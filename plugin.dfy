/** The plugin manager of src/mcctl/plugin.py: installing plugin files and archives, removing
    plugins by search term, proposing old versions of freshly installed plugins for removal, and
    listing which instances support plugins. The collaborators the module calls but no shown
    file defines (the URL test, the download, the two install helpers, the status notifier and
    the yes/no prompt) are parameters; difflib's similarity ratio is an uninterpreted function. */
module Plugin {
  import opened Wrappers
  import opened Text
  import Order

  // ---------------------------------------------------------------------------------------------
  // State

  /** Something the plugin manager does to the server, in order. */
  datatype Event =
    | StatusChange(action: string)    // a `notified_set_status` call
    | Installed(source: string)       // a source given to an install helper
    | Unlinked(name: string)          // a plugin file removed

  /** An instance directory with its plugins directory, as the plugin manager sees them. */
  class PluginDir {
    /** Whether the instance path is a directory. */
    var instanceIsDir: bool
    /** Whether the plugins path is a directory. */
    var pluginsIsDir: bool
    /** Whether anything (a directory or a file) is at the plugins path. */
    var pluginsExists: bool
    /** The names of the entries of the plugins directory. */
    var names: set<string>
    /** Everything done to the server so far. */
    var events: seq<Event>

    constructor (instanceIsDir0: bool, pluginsIsDir0: bool, pluginsExists0: bool, names0: set<string>)
      ensures instanceIsDir == instanceIsDir0 && pluginsIsDir == pluginsIsDir0
      ensures pluginsExists == pluginsExists0 && names == names0 && events == []
    {
      instanceIsDir, pluginsIsDir, pluginsExists := instanceIsDir0, pluginsIsDir0, pluginsExists0;
      names, events := names0, [];
    }
  }

  // ---------------------------------------------------------------------------------------------
  // Names and suffixes

  /** The position of the last `.` in `s`. */
  function LastDot(s: string): (r: Option<nat>)
    ensures r.Some? ==> r.value < |s| && s[r.value] == '.' && '.' !in s[r.value + 1..]
    ensures r.None? ==> '.' !in s
    decreases |s|
  {
    if |s| == 0 then None
    else if s[|s| - 1] == '.' then Some(|s| - 1)
    else LastDot(s[..|s| - 1])
  }

  /** `PurePath(name).suffix` of a file name: from the last `.` on, unless that dot opens the name
      or ends it. */
  function Suffix(name: string): (r: string)
    ensures r == "" || (2 <= |r| < |name| && r[0] == '.' && EndsWith(name, r) && '.' !in r[1..])
  {
    match LastDot(name)
    case Some(i) => if 0 < i < |name| - 1 then name[i..] else ""
    case None => ""
  }

  /** The parts of a `/`-separated path that name something: not empty, not `.`. */
  function NamedParts(parts: seq<string>): (r: seq<string>)
    ensures forall i :: 0 <= i < |r| ==> r[i] != "" && r[i] != "."
  {
    if |parts| == 0 then []
    else if parts[0] == "" || parts[0] == "." then NamedParts(parts[1..])
    else [parts[0]] + NamedParts(parts[1..])
  }

  /** `Path(s).name`. */
  function BaseName(s: string): string {
    var parts := NamedParts(Split(s, '/'));
    if |parts| == 0 then "" else parts[|parts| - 1]
  }

  /** The `.jar` entries of the plugins directory. */
  function JarNames(names: set<string>): (r: set<string>)
    ensures r <= names
  {
    set x | x in names && Suffix(x) == ".jar"
  }

  // ---------------------------------------------------------------------------------------------
  // uninstall's selection

  /** The names `uninstall` resolves, as written: `installed_names` is a generator, so the first
      search term runs it to the end and the later terms find nothing left. */
  function Resolved(terms: seq<string>, names: set<string>): (r: set<string>)
  {
    if |terms| == 0 then {}
    else set x | x in JarNames(names) && Contains(Lower(x), Lower(terms[0]))
  }

  /** The selection the documentation describes: every `.jar` whose name contains any of the
      search terms, ignoring case. */
  function ResolvedAll(terms: seq<string>, names: set<string>): (r: set<string>)
  {
    set x | x in JarNames(names) && exists i :: 0 <= i < |terms| && Contains(Lower(x), Lower(terms[i]))
  }

  /** What `uninstall` selects: with at least one search term, the `.jar` entries whose name
      contains the first term, ignoring case. */
  lemma ResolvedMembers(terms: seq<string>, names: set<string>, x: string)
    ensures x in Resolved(terms, names) <==>
      |terms| > 0 && x in names && Suffix(x) == ".jar" && Contains(Lower(x), Lower(terms[0]))
  {
  }

  /** A second search term contributes nothing as written, however well it matches. */
  lemma LaterTermsIgnored(first: string, second: string, name: string)
    requires Suffix(name) == ".jar" && Contains(Lower(name), Lower(second))
    requires !Contains(Lower(name), Lower(first))
    ensures name !in Resolved([first, second], {name})
    ensures name in ResolvedAll([first, second], {name})
  {
    assert [first, second][1] == second;
  }

  /** With one search term the two selections agree, and in general the as-written one is the
      first term's share of the intended one. */
  lemma ResolvedIsFirstTerm(terms: seq<string>, names: set<string>)
    ensures Resolved(terms, names) <= ResolvedAll(terms, names)
    ensures |terms| == 1 ==> Resolved(terms, names) == ResolvedAll(terms, names)
  {
    if |terms| > 0 {
      forall x | x in Resolved(terms, names) ensures x in ResolvedAll(terms, names) {
        assert Contains(Lower(x), Lower(terms[0]));
      }
      if |terms| == 1 {
        forall x | x in ResolvedAll(terms, names) ensures x in Resolved(terms, names) {
          var i :| 0 <= i < |terms| && Contains(Lower(x), Lower(terms[i]));
          assert i == 0;
        }
      }
    }
  }

  /** One search term's pass over the generator of jar names: the names in `pending` containing
      the term, ignoring case. */
  method TakeMatches(pending: set<string>, term: string) returns (found: set<string>)
    ensures forall x :: x in found <==> x in pending && Contains(Lower(x), Lower(term))
  {
    var t := Lower(term);
    var rest := pending;
    found := {};
    while rest != {}
      invariant rest <= pending
      invariant forall x :: x in found <==> x in pending - rest && Contains(Lower(x), t)
      decreases |rest|
    {
      var x :| x in rest;
      if Contains(Lower(x), t) {
        found := found + {x};
      }
      rest := rest - {x};
    }
  }

  /** The selection loop of `uninstall`: each search term takes what is left of the one generator
      of jar names, which the first term uses up. */
  method ResolveNames(terms: seq<string>, names: set<string>) returns (resolved: set<string>)
    ensures resolved == Resolved(terms, names)
  {
    var pending := JarNames(names);
    resolved := {};
    for k := 0 to |terms|
      invariant k == 0 ==> pending == JarNames(names) && resolved == {}
      invariant k > 0 ==> pending == {} && resolved == Resolved(terms, names)
    {
      var found := TakeMatches(pending, terms[k]);
      resolved := resolved + found;
      pending := {};
    }
  }

  // ---------------------------------------------------------------------------------------------
  // Event logs

  /** The events of going through the names of `ns` in order, removing each (`unlink`) or
      installing it. */
  function Events(ns: seq<string>, unlink: bool): (r: seq<Event>)
    ensures |r| == |ns|
    decreases |ns|
  {
    if |ns| == 0 then []
    else
      var n := ns[|ns| - 1];
      Events(ns[..|ns| - 1], unlink) + [if unlink then Unlinked(n) else Installed(n)]
  }

  lemma EventsSnoc(ns: seq<string>, n: string, unlink: bool)
    ensures Events(ns + [n], unlink) == Events(ns, unlink) + [if unlink then Unlinked(n) else Installed(n)]
  {
    assert (ns + [n])[..|ns|] == ns;
  }

  /** `order` goes through the set `s`, each member once: the order a Python loop over the set
      takes, which the model leaves open. */
  predicate EachOnce(order: seq<string>, s: set<string>) {
    multiset(order) == multiset(s)
  }

  lemma EachOnceSnoc(order: seq<string>, s: set<string>, n: string)
    requires EachOnce(order, s) && n !in s
    ensures EachOnce(order + [n], s + {n})
  {
    assert multiset(s + {n}) == multiset(s) + multiset{n};
  }

  /** Going through a set once visits exactly its members, as many steps as it has members. */
  lemma EachOnceVisits(order: seq<string>, s: set<string>)
    requires EachOnce(order, s)
    ensures |order| == |s|
    ensures forall x :: x in order <==> x in s
  {
    assert |multiset(order)| == |order|;
    assert |multiset(s)| == |s|;
    forall x ensures x in order <==> x in s {
      assert x in order <==> x in multiset(order);
      assert x in s <==> x in multiset(s);
    }
  }

  // ---------------------------------------------------------------------------------------------
  // Unlinking

  /** `for plugin_name in resolved_names: (plugin_path / plugin_name).unlink()`: the entries left,
      and the order the removals were made in. */
  method UnlinkAll(names: set<string>, doomed: set<string>) returns (remaining: set<string>, order: seq<string>)
    ensures remaining == names - doomed
    ensures EachOnce(order, doomed)
  {
    var todo := doomed;
    ghost var done: set<string> := {};
    remaining, order := names, [];
    while todo != {}
      invariant forall x :: x in doomed <==> x in todo || x in done
      invariant todo !! done
      invariant forall x :: x in remaining <==> x in names && x !in done
      invariant EachOnce(order, done)
      decreases |todo|
    {
      var n :| n in todo;
      EachOnceSnoc(order, done, n);
      remaining := remaining - {n};
      order := order + [n];
      done := done + {n};
      todo := todo - {n};
    }
    assert done == doomed;
    assert remaining == names - doomed;
  }

  /** The removal step `uninstall` and `auto_uninstall` share: when something was selected and
      the removal goes ahead (`go`: forced or confirmed), unlink the selection between the events
      `before` and `after`; otherwise change nothing. */
  method RemoveSelected(d: PluginDir, selected: set<string>, go: bool, before: seq<Event>, after: seq<Event>)
    returns (removed: set<string>, order: seq<string>)
    modifies d
    ensures removed == if selected != {} && go then selected else {}
    ensures d.names == old(d.names) - removed
    ensures EachOnce(order, removed)
    ensures d.events == old(d.events) + if removed != {} then before + Events(order, true) + after else []
    ensures d.instanceIsDir == old(d.instanceIsDir) && d.pluginsIsDir == old(d.pluginsIsDir)
    ensures d.pluginsExists == old(d.pluginsExists)
  {
    if selected != {} && go {
      var remaining;
      remaining, order := UnlinkAll(d.names, selected);
      d.names := remaining;
      d.events := d.events + (before + Events(order, true) + after);
      removed := selected;
    } else {
      removed, order := {}, [];
      assert d.events == old(d.events) + [];
    }
  }

  // ---------------------------------------------------------------------------------------------
  // uninstall

  /** `uninstall(instance, plugins, restart, force)`: remove the plugins the search terms select,
      after the user agrees (`confirmed` is the answer to the prompt; it is asked only when
      something was selected and `force` is not set). With `restart` the server is stopped before
      the files go and started after. The results are the set removed and the order of the
      removals. */
  method Uninstall(d: PluginDir, terms: seq<string>, restart: bool, force: bool, confirmed: bool)
    returns (r: Result<set<string>>, order: seq<string>)
    modifies d
    ensures r.Err? <==> !old(d.instanceIsDir) || !old(d.pluginsIsDir)
    ensures r.Err? ==> r.error == FileNotFoundError
    ensures r.Ok? ==> r.value == if Resolved(terms, old(d.names)) != {} && (force || confirmed)
                                 then Resolved(terms, old(d.names)) else {}
    ensures d.names == old(d.names) - (if r.Ok? then r.value else {})
    ensures EachOnce(order, if r.Ok? then r.value else {})
    ensures d.events == old(d.events) + if r.Ok? && r.value != {} then RestartAround(restart, Events(order, true)) else []
    ensures d.instanceIsDir == old(d.instanceIsDir) && d.pluginsIsDir == old(d.pluginsIsDir)
    ensures d.pluginsExists == old(d.pluginsExists)
  {
    if !d.instanceIsDir || !d.pluginsIsDir {
      assert d.events == old(d.events) + [];
      return Err(FileNotFoundError), [];
    }
    var resolved := ResolveNames(terms, d.names);
    var removed;
    var before := if restart then [StatusChange("stop")] else [];
    var after := if restart then [StatusChange("start")] else [];
    removed, order := RemoveSelected(d, resolved, force || confirmed, before, after);
    assert before + Events(order, true) + after == RestartAround(restart, Events(order, true));
    r := Ok(removed);
  }

  /** The events of an `uninstall` that removes something: the unlinks, with `restart` between a
      stop and a start. */
  function RestartAround(restart: bool, log: seq<Event>): seq<Event> {
    if restart then [StatusChange("stop")] + log + [StatusChange("start")] else log
  }

  // ---------------------------------------------------------------------------------------------
  // auto_uninstall

  /** The similarity a plugin needs to count as an older version. */
  const Cutoff: real := 0.6
  /** How many close matches are kept per new plugin. */
  const MaxMatches: nat := 2

  /** `a` ranks above `b` among the close matches of `word`: a higher ratio, or the same ratio and
      the larger string, as `heapq.nlargest` orders `(score, x)` pairs. `ratio(x, word)` is
      `SequenceMatcher` with `x` as first and `word` as second sequence. */
  predicate Above(a: string, b: string, word: string, ratio: (string, string) -> real) {
    ratio(a, word) > ratio(b, word) || (ratio(a, word) == ratio(b, word) && Order.StrLt(b, a))
  }

  lemma AboveTrans(a: string, b: string, c: string, word: string, ratio: (string, string) -> real)
    requires Above(a, b, word, ratio) && Above(b, c, word, ratio)
    ensures Above(a, c, word, ratio)
  {
    if ratio(a, word) == ratio(b, word) == ratio(c, word) {
      Order.StrLeTrans(c, b, a);
      if c == a {
        Order.StrLeAntisym(a, b);
      }
    }
  }

  lemma AboveTotal(a: string, b: string, word: string, ratio: (string, string) -> real)
    requires a != b
    ensures Above(a, b, word, ratio) || Above(b, a, word, ratio)
  {
    Order.StrLeTotal(a, b);
  }

  /** Every non-empty set of candidates has one that ranks above all the others. */
  lemma {:induction false} TopExists(s: set<string>, word: string, ratio: (string, string) -> real)
    requires s != {}
    ensures exists t :: t in s && forall y :: y in s && y != t ==> Above(t, y, word, ratio)
    decreases |s|
  {
    var x :| x in s;
    if s - {x} == {} {
      forall y | y in s ensures y == x {
        assert y !in s - {x};
      }
    } else {
      TopExists(s - {x}, word, ratio);
      var t :| t in s - {x} && forall y :: y in s - {x} && y != t ==> Above(t, y, word, ratio);
      AboveTotal(x, t, word, ratio);
      if Above(x, t, word, ratio) {
        forall y | y in s && y != x ensures Above(x, y, word, ratio) {
          if y != t {
            AboveTrans(x, t, y, word, ratio);
          }
        }
      } else {
        assert forall y :: y in s && y != t ==> Above(t, y, word, ratio);
      }
    }
  }

  /** The candidates `get_close_matches` scores for `word`: those with a ratio of at least the
      cutoff. */
  function Good(word: string, possibilities: set<string>, ratio: (string, string) -> real): (r: set<string>)
    ensures r <= possibilities
  {
    set x | x in possibilities && ratio(x, word) >= Cutoff
  }

  /** No candidate ranks both above and below another. */
  lemma AboveAsym(a: string, b: string, word: string, ratio: (string, string) -> real)
    requires Above(a, b, word, ratio)
    ensures !Above(b, a, word, ratio)
  {
    if ratio(a, word) == ratio(b, word) && Order.StrLt(a, b) {
      Order.StrLeAntisym(a, b);
    }
  }

  /** The best-ranked candidate of a non-empty `pool`. */
  ghost function Best(pool: set<string>, word: string, ratio: (string, string) -> real): (t: string)
    requires pool != {}
    ensures t in pool && forall y :: y in pool && y != t ==> Above(t, y, word, ratio)
  {
    TopExists(pool, word, ratio);
    var t :| t in pool && forall y :: y in pool && y != t ==> Above(t, y, word, ratio);
    t
  }

  /** The `k` best-ranked candidates of `pool`, taken one at a time from the top. */
  ghost function TopFrom(pool: set<string>, k: nat, word: string, ratio: (string, string) -> real): set<string>
    decreases k
  {
    if k == 0 || pool == {} then {}
    else {Best(pool, word, ratio)} + TopFrom(pool - {Best(pool, word, ratio)}, k - 1, word, ratio)
  }

  /** A non-empty selection whose members rank above the rest of `pool` holds the top of `pool`. */
  lemma TopSelected(pool: set<string>, r: set<string>, t: string, word: string, ratio: (string, string) -> real)
    requires r <= pool && r != {} && t in pool
    requires forall x, y :: x in r && y in pool - r ==> Above(x, y, word, ratio)
    requires forall y :: y in pool && y != t ==> Above(t, y, word, ratio)
    ensures t in r
  {
    if t !in r {
      var x :| x in r;
      AboveAsym(x, t, word, ratio);
    }
  }

  /** Removing the top `t` from both the selection and `pool` keeps the selection's shape. */
  lemma SelectedRest(pool: set<string>, k: nat, r: set<string>, t: string, word: string,
                     ratio: (string, string) -> real)
    requires r <= pool && t in r && k > 0
    requires |r| == if |pool| < k then |pool| else k
    requires forall x, y :: x in r && y in pool - r ==> Above(x, y, word, ratio)
    ensures r - {t} <= pool - {t}
    ensures |r - {t}| == if |pool - {t}| < k - 1 then |pool - {t}| else k - 1
    ensures forall x, y :: x in r - {t} && y in (pool - {t}) - (r - {t}) ==> Above(x, y, word, ratio)
  {
    assert |r - {t}| == |r| - 1;
    assert |pool - {t}| == |pool| - 1;
    assert (pool - {t}) - (r - {t}) == pool - r;
  }

  /** `TopFrom` is the only subset of `pool` of its size whose members all rank above the rest. */
  lemma {:induction false} TopFromChar(pool: set<string>, k: nat, r: set<string>, word: string,
                                       ratio: (string, string) -> real)
    requires r <= pool
    requires |r| == if |pool| < k then |pool| else k
    requires forall x, y :: x in r && y in pool - r ==> Above(x, y, word, ratio)
    ensures r == TopFrom(pool, k, word, ratio)
    decreases k
  {
    if k == 0 || pool == {} {
      assert |r| == 0;
      assert r == {};
    } else {
      var t := Best(pool, word, ratio);
      TopSelected(pool, r, t, word, ratio);
      SelectedRest(pool, k, r, t, word, ratio);
      TopFromChar(pool - {t}, k - 1, r - {t}, word, ratio);
      assert TopFrom(pool, k, word, ratio) == {t} + TopFrom(pool - {t}, k - 1, word, ratio);
      assert r == {t} + (r - {t});
    }
  }

  /** What `get_close_matches(word, possibilities, 2)` returns, as a set. */
  ghost function Top(word: string, possibilities: set<string>, ratio: (string, string) -> real): set<string> {
    TopFrom(Good(word, possibilities, ratio), MaxMatches, word, ratio)
  }

  /** The selection loop of `get_close_matches`: the best-ranked candidates of `good`, two at
      most, taken one at a time from the top. */
  method TakeBest(good: set<string>, word: string, ratio: (string, string) -> real) returns (r: set<string>)
    ensures r <= good
    ensures |r| == if |good| < MaxMatches then |good| else MaxMatches
    ensures forall x, y :: x in r && y in good - r ==> Above(x, y, word, ratio)
    ensures r == TopFrom(good, MaxMatches, word, ratio)
  {
    var pool := good;
    r := {};
    while |r| < MaxMatches && pool != {}
      invariant forall x :: x in good <==> x in pool || x in r
      invariant pool !! r
      invariant |r| <= MaxMatches
      invariant forall x, y :: x in r && y in pool ==> Above(x, y, word, ratio)
      decreases |pool|
    {
      TopExists(pool, word, ratio);
      var t :| t in pool && forall y :: y in pool && y != t ==> Above(t, y, word, ratio);
      r := r + {t};
      pool := pool - {t};
    }
    assert good == pool + r;
    assert good - r == pool;
    TopFromChar(good, MaxMatches, r, word, ratio);
  }

  /** `difflib.get_close_matches(word, possibilities, 2)`: the two best-ranked candidates with a
      ratio of at least the cutoff, or all of them when there are fewer. */
  method CloseMatches(word: string, possibilities: set<string>, ratio: (string, string) -> real)
    returns (r: set<string>)
    ensures r <= Good(word, possibilities, ratio)
    ensures |r| == if |Good(word, possibilities, ratio)| < MaxMatches then |Good(word, possibilities, ratio)| else MaxMatches
    ensures forall x, y :: x in r && y in Good(word, possibilities, ratio) - r ==> Above(x, y, word, ratio)
    ensures forall x :: x in r ==> x in possibilities && ratio(x, word) >= Cutoff
    ensures r == {} <==> forall x :: x in possibilities ==> ratio(x, word) < Cutoff
    ensures r == Top(word, possibilities, ratio)
  {
    var good := Good(word, possibilities, ratio);
    r := TakeBest(good, word, ratio);
    if r == {} {
      assert good == {};
      forall x | x in possibilities ensures ratio(x, word) < Cutoff {
        assert x !in good;
      }
    }
  }

  /** The union of the close matches of each new plugin among `before`, the set `auto_uninstall`
      gathers in `resolved_names`. */
  ghost function Proposed(before: set<string>, newPlugins: set<string>, ratio: (string, string) -> real): set<string> {
    set p, x | p in newPlugins && x in Top(p, before, ratio) :: x
  }

  lemma ProposedAdd(before: set<string>, done: set<string>, p: string, ratio: (string, string) -> real)
    ensures Proposed(before, done + {p}, ratio) == Proposed(before, done, ratio) + Top(p, before, ratio)
  {
  }

  /** The loop of `auto_uninstall` over the new plugins, gathering the close matches of each among
      the plugins that were there before. */
  method OldVersions(before: set<string>, newPlugins: set<string>, ratio: (string, string) -> real)
    returns (resolved: set<string>)
    ensures resolved <= before
    ensures |resolved| <= MaxMatches * |newPlugins|
    ensures forall x :: x in resolved ==> exists p :: p in newPlugins && ratio(x, p) >= Cutoff
    ensures resolved == {} <==> forall p, x :: p in newPlugins && x in before ==> ratio(x, p) < Cutoff
    ensures resolved == Proposed(before, newPlugins, ratio)
  {
    var todo := newPlugins;
    ghost var done: set<string> := {};
    resolved := {};
    while todo != {}
      invariant forall p :: p in newPlugins <==> p in todo || p in done
      invariant todo !! done
      invariant resolved <= before
      invariant |resolved| <= MaxMatches * |done|
      invariant forall x :: x in resolved ==> exists p :: p in done && ratio(x, p) >= Cutoff
      invariant resolved == {} <==> forall p, x :: p in done && x in before ==> ratio(x, p) < Cutoff
      invariant resolved == Proposed(before, done, ratio)
      decreases |todo|
    {
      var p :| p in todo;
      var matches := CloseMatches(p, before, ratio);
      ProposedAdd(before, done, p, ratio);
      assert |done + {p}| == |done| + 1;
      assert |matches| <= MaxMatches;
      resolved := resolved + matches;
      done := done + {p};
      todo := todo - {p};
    }
    assert done == newPlugins;
  }

  /** `auto_uninstall(instance, new_plugins, force)`: propose the close matches of the new plugins
      among the plugins installed before them, and remove them once the user agrees. Listing a
      missing plugins directory raises `FileNotFoundError`, a file there `NotADirectoryError`. */
  method AutoUninstall(d: PluginDir, newPlugins: set<string>, force: bool, confirmed: bool, ratio: (string, string) -> real)
    returns (r: Result<set<string>>, order: seq<string>)
    modifies d
    ensures r.Err? <==> !old(d.pluginsIsDir)
    ensures r.Err? ==> r.error == if old(d.pluginsExists) then NotADirectoryError else FileNotFoundError
    ensures r.Ok? ==> r.value <= JarNames(old(d.names)) - newPlugins
    ensures r.Ok? ==> |r.value| <= MaxMatches * |newPlugins|
    ensures r.Ok? ==> forall x :: x in r.value ==> exists p :: p in newPlugins && ratio(x, p) >= Cutoff
    ensures r.Ok? && (force || confirmed) ==>
      (r.value == {} <==> forall p, x :: p in newPlugins && x in JarNames(old(d.names)) - newPlugins ==> ratio(x, p) < Cutoff)
    ensures r.Ok? && (force || confirmed) ==> r.value == Proposed(JarNames(old(d.names)) - newPlugins, newPlugins, ratio)
    ensures r.Ok? && !force && !confirmed ==> r.value == {}
    ensures d.names == old(d.names) - (if r.Ok? then r.value else {})
    ensures EachOnce(order, if r.Ok? then r.value else {})
    ensures d.events == old(d.events) + Events(order, true)
    ensures d.instanceIsDir == old(d.instanceIsDir) && d.pluginsIsDir == old(d.pluginsIsDir)
    ensures d.pluginsExists == old(d.pluginsExists)
  {
    if !d.pluginsIsDir {
      assert d.events == old(d.events) + [];
      return Err(if d.pluginsExists then NotADirectoryError else FileNotFoundError), [];
    }
    var before := JarNames(d.names) - newPlugins;
    var resolved := OldVersions(before, newPlugins, ratio);
    var removed;
    removed, order := RemoveSelected(d, resolved, force || confirmed, [], []);
    EachOnceVisits(order, removed);
    assert [] + Events(order, true) + [] == Events(order, true);
    r := Ok(removed);
  }

  // ---------------------------------------------------------------------------------------------
  // install

  /** The suffix of a source's file name, which decides how it is installed. */
  function SourceSuffix(source: string): string {
    Suffix(BaseName(source))
  }

  /** A source `install` accepts: a `.zip` archive or a bare `.jar`. */
  predicate Installable(source: string) {
    SourceSuffix(source) == ".zip" || SourceSuffix(source) == ".jar"
  }

  /** The plugin files a source yields: the plugins `archiveNames` finds in an archive, the one
      file `bareName` names for a bare plugin. */
  function Yield(source: string, archiveNames: string -> set<string>, bareName: string -> string): (r: set<string>)
    ensures !Installable(source) ==> r == {}
  {
    if SourceSuffix(source) == ".zip" then archiveNames(source)
    else if SourceSuffix(source) == ".jar" then {bareName(source)}
    else {}
  }

  /** Everything the sources yield together. */
  function Produced(files: set<string>, archiveNames: string -> set<string>, bareName: string -> string): (r: set<string>)
  {
    set f, x | f in files && x in Yield(f, archiveNames, bareName) :: x
  }

  /** `set(sources)`. */
  function Distinct(sources: seq<string>): (r: set<string>)
  {
    set s | s in sources
  }

  /** The sources after the downloads: each URL replaced by the local file `download` gives, each
      other source kept. */
  function Localised(sources: set<string>, isUrl: string -> bool, download: string -> string): (r: set<string>)
  {
    (set s | s in sources && !isUrl(s)) + (set u | u in sources && isUrl(u) :: download(u))
  }

  /** The download loop of `install` over the de-duplicated sources. A download is a local file,
      never a URL. */
  method Localise(sources: seq<string>, isUrl: string -> bool, download: string -> string) returns (files: set<string>)
    requires forall u :: !isUrl(download(u))
    ensures files == Localised(Distinct(sources), isUrl, download)
    ensures forall f :: f in files ==> !isUrl(f)
    ensures forall u :: u in sources && isUrl(u) ==> download(u) in files
  {
    var unique := Distinct(sources);
    files := unique;
    var todo := unique;
    while todo != {}
      invariant todo <= unique
      invariant forall x :: x in files <==>
        (x in unique && (!isUrl(x) || x in todo)) || exists u :: u in unique && u !in todo && isUrl(u) && x == download(u)
      decreases |todo|
    {
      var s :| s in todo;
      if isUrl(s) {
        files := files + {download(s)};
        files := files - {s};
      }
      todo := todo - {s};
    }
  }

  /** The install loop: each file goes to the archive or the bare installer by its suffix, and
      the first other suffix raises `ValueError`, leaving what was installed before it. The
      results are the outcome, the entries of the plugins directory after it, and the order the
      files were installed in. */
  method InstallAll(names: set<string>, files: set<string>, archiveNames: string -> set<string>, bareName: string -> string)
    returns (r: Result<set<string>>, after: set<string>, order: seq<string>)
    ensures r.Ok? <==> forall f :: f in files ==> Installable(f)
    ensures r.Err? ==> r.error == ValueError
    ensures r.Ok? ==> r.value == Produced(files, archiveNames, bareName)
    ensures r.Ok? ==> after == names + r.value
    ensures r.Err? ==> names <= after <= names + Produced(files, archiveNames, bareName)
    ensures r.Ok? ==> EachOnce(order, files)
  {
    var todo := files;
    ghost var done: set<string> := {};
    var installed: set<string> := {};
    after, order := names, [];
    while todo != {}
      invariant forall f :: f in files <==> f in todo || f in done
      invariant todo !! done
      invariant forall f :: f in done ==> Installable(f)
      invariant installed == Produced(done, archiveNames, bareName)
      invariant forall x :: x in after <==> x in names || x in installed
      invariant EachOnce(order, done)
      decreases |todo|
    {
      var f :| f in todo;
      if !Installable(f) {
        ProducedMono(done, files, archiveNames, bareName);
        return Err(ValueError), after, order;
      }
      EachOnceSnoc(order, done, f);
      ProducedSnoc(done, f, archiveNames, bareName);
      var yielded := if SourceSuffix(f) == ".zip" then archiveNames(f) else {bareName(f)};
      installed := installed + yielded;
      after := after + yielded;
      order := order + [f];
      done := done + {f};
      todo := todo - {f};
    }
    assert done == files;
    assert after == names + installed;
    r := Ok(installed);
  }

  lemma ProducedSnoc(done: set<string>, f: string, archiveNames: string -> set<string>, bareName: string -> string)
    ensures Produced(done + {f}, archiveNames, bareName) == Produced(done, archiveNames, bareName) + Yield(f, archiveNames, bareName)
  {
    var a := Produced(done + {f}, archiveNames, bareName);
    var b := Produced(done, archiveNames, bareName) + Yield(f, archiveNames, bareName);
    forall x | x in a ensures x in b {
      var g :| g in done + {f} && x in Yield(g, archiveNames, bareName);
    }
  }

  lemma ProducedMono(a: set<string>, b: set<string>, archiveNames: string -> set<string>, bareName: string -> string)
    requires a <= b
    ensures Produced(a, archiveNames, bareName) <= Produced(b, archiveNames, bareName)
  {
    forall x | x in Produced(a, archiveNames, bareName) ensures x in Produced(b, archiveNames, bareName) {
      var g :| g in a && x in Yield(g, archiveNames, bareName);
    }
  }

  /** The install loop run on the plugins directory, then the restart when asked. */
  method InstallFiles(d: PluginDir, files: set<string>, restart: bool,
                      archiveNames: string -> set<string>, bareName: string -> string)
    returns (r: Result<set<string>>, order: seq<string>)
    modifies d
    ensures r.Ok? <==> forall f :: f in files ==> Installable(f)
    ensures r.Err? ==> r.error == ValueError
    ensures r.Ok? ==> r.value == Produced(files, archiveNames, bareName)
    ensures r.Ok? ==> d.names == old(d.names) + r.value
    ensures r.Err? ==> old(d.names) <= d.names <= old(d.names) + Produced(files, archiveNames, bareName)
    ensures r.Ok? ==> EachOnce(order, files)
    ensures r.Ok? ==> d.events == old(d.events) + Events(order, false) + (if restart then [StatusChange("restart")] else [])
    ensures d.instanceIsDir == old(d.instanceIsDir) && d.pluginsIsDir == old(d.pluginsIsDir)
    ensures d.pluginsExists == old(d.pluginsExists)
  {
    var after;
    r, after, order := InstallAll(d.names, files, archiveNames, bareName);
    d.names := after;
    d.events := d.events + Events(order, false);
    if r.Ok? {
      d.events := d.events + (if restart then [StatusChange("restart")] else []);
    }
  }

  /** `install(instance, sources, restart, autoupgrade)`: check the instance and its plugins
      directory and that some source is given, fetch the URLs, install every file, restart the
      server when asked, and with `autoupgrade` offer to remove older versions of what was
      installed (`confirmed` answers that prompt). The results are the set installed, the set
      `auto_uninstall` removed, and the orders of the installs and of the removals. */
  method Install(d: PluginDir, sources: seq<string>, restart: bool, autoupgrade: bool,
                 isUrl: string -> bool, download: string -> string,
                 archiveNames: string -> set<string>, bareName: string -> string,
                 ratio: (string, string) -> real, confirmed: bool)
    returns (r: Result<set<string>>, removed: set<string>, installs: seq<string>, unlinks: seq<string>)
    requires forall u :: !isUrl(download(u))
    modifies d
    ensures !old(d.instanceIsDir) || !old(d.pluginsIsDir) ==>
      r == Err(FileNotFoundError) && d.names == old(d.names) && d.events == old(d.events)
    ensures old(d.instanceIsDir) && old(d.pluginsIsDir) && |sources| == 0 ==>
      r == Err(ValueError) && d.names == old(d.names) && d.events == old(d.events)
    ensures r.Ok? <==> (old(d.instanceIsDir) && old(d.pluginsIsDir) && |sources| > 0 &&
                        forall f :: f in Localised(Distinct(sources), isUrl, download) ==> Installable(f))
    ensures r.Ok? ==> r.value == Produced(Localised(Distinct(sources), isUrl, download), archiveNames, bareName)
    ensures r.Err? ==> old(d.names) <= d.names <= old(d.names) + Produced(Localised(Distinct(sources), isUrl, download), archiveNames, bareName)
    ensures r.Ok? ==> EachOnce(installs, Localised(Distinct(sources), isUrl, download))
    ensures r.Ok? ==> removed <= JarNames(old(d.names) + r.value) - r.value
    ensures r.Ok? ==> d.names == (old(d.names) + r.value) - removed
    ensures r.Ok? ==> forall x :: x in removed ==> exists p :: p in r.value && ratio(x, p) >= Cutoff
    ensures !autoupgrade || r.Err? ==> removed == {}
    ensures r.Ok? && autoupgrade ==>
      removed == if confirmed then Proposed(JarNames(old(d.names) + r.value) - r.value, r.value, ratio) else {}
    ensures EachOnce(unlinks, removed)
    ensures r.Ok? ==> d.events == old(d.events) + Events(installs, false) +
                                  (if restart then [StatusChange("restart")] else []) + Events(unlinks, true)
    ensures d.instanceIsDir == old(d.instanceIsDir) && d.pluginsIsDir == old(d.pluginsIsDir)
    ensures d.pluginsExists == old(d.pluginsExists)
  {
    removed, installs, unlinks := {}, [], [];
    if !d.instanceIsDir || !d.pluginsIsDir {
      return Err(FileNotFoundError), removed, installs, unlinks;
    }
    if |sources| == 0 {
      return Err(ValueError), removed, installs, unlinks;
    }
    var files := Localise(sources, isUrl, download);
    r, installs := InstallFiles(d, files, restart, archiveNames, bareName);
    if r.Ok? && autoupgrade {
      var auto;
      auto, unlinks := AutoUninstall(d, r.value, false, confirmed, ratio);
      removed := auto.value;
    }
  }

  // ---------------------------------------------------------------------------------------------
  // get_plugins and list_plugins

  /** `get_plugins(instance)`: the `.jar` entries of the plugins directory, each once, in the
      directory's order (left open); `FileNotFoundError` without a plugins directory. */
  method GetPlugins(d: PluginDir) returns (r: Result<seq<string>>)
    ensures r.Err? <==> !d.pluginsIsDir
    ensures r.Err? ==> r.error == FileNotFoundError
    ensures r.Ok? ==> (forall x :: x in r.value <==> x in JarNames(d.names))
    ensures r.Ok? ==> |r.value| == |JarNames(d.names)|
  {
    if !d.pluginsIsDir {
      return Err(FileNotFoundError);
    }
    var all := d.names;
    var todo := all;
    var plugins: seq<string> := [];
    ghost var seen: set<string> := {};
    ghost var jars: set<string> := {};
    while todo != {}
      invariant forall x :: x in all <==> x in todo || x in seen
      invariant todo !! seen
      invariant forall x :: x in jars <==> x in seen && Suffix(x) == ".jar"
      invariant forall x :: x in plugins <==> x in jars
      invariant |plugins| == |jars|
      decreases |todo|
    {
      var x :| x in todo;
      if Suffix(x) == ".jar" {
        plugins := plugins + [x];
        jars := jars + {x};
      }
      seen := seen + {x};
      todo := todo - {x};
    }
    assert jars == JarNames(all);
    r := Ok(plugins);
  }

  /** The plugins `list_plugins` shows for an instance: none when `get_plugins` raised. */
  function Shown(plugins: Option<seq<string>>): seq<string> {
    match plugins
    case Some(p) => p
    case None => []
  }

  /** The status column of `list_plugins`. */
  function Support(plugins: seq<string>): string {
    if |plugins| > 0 then "supported" else "not supported"
  }

  /** One line of `list_plugins`, `"{:16} {:^14} {}"` filled in. */
  function PluginRow(instance: string, plugins: seq<string>): string {
    PadRight(instance, 16) + " " + Center(Support(plugins), 14) + " " + Join(", ", plugins)
  }

  /** The header line of `list_plugins`. */
  const PluginHeader: string := PadRight("Instance", 16) + " " + Center("Plugins", 14) + " " + "Installed"

  /** What `list_plugins` prints: the header, then the row of each instance that contains the
      filter text; `pluginsOf` is `get_plugins` of each instance, `None` for one without a plugins
      directory (shown with no plugins). */
  function PluginLines(filter: string, instances: seq<string>, pluginsOf: string -> Option<seq<string>>): (r: seq<string>)
    ensures |r| <= |instances|
    ensures forall k :: 0 <= k < |r| ==> Contains(r[k], filter)
    ensures forall k :: 0 <= k < |r| ==>
              exists i :: 0 <= i < |instances| && r[k] == PluginRow(instances[i], Shown(pluginsOf(instances[i])))
  {
    if |instances| == 0 then []
    else
      var row := PluginRow(instances[0], Shown(pluginsOf(instances[0])));
      var rest := PluginLines(filter, instances[1..], pluginsOf);
      assert forall i :: 0 <= i < |instances| - 1 ==> instances[1..][i] == instances[i + 1];
      if Contains(row, filter) then [row] + rest else rest
  }

  method ListPlugins(filter: string, instances: seq<string>, pluginsOf: string -> Option<seq<string>>)
    returns (lines: seq<string>)
    ensures lines == [PluginHeader] + PluginLines(filter, instances, pluginsOf)
  {
    lines := [PluginHeader];
    var i := 0;
    while i < |instances|
      invariant 0 <= i <= |instances|
      invariant lines + PluginLines(filter, instances[i..], pluginsOf) == [PluginHeader] + PluginLines(filter, instances, pluginsOf)
    {
      var plugins := Shown(pluginsOf(instances[i]));
      var row := PluginRow(instances[i], plugins);
      assert instances[i..][1..] == instances[i + 1..];
      if Contains(row, filter) {
        lines := lines + [row];
      }
      i := i + 1;
    }
  }

  /** For an instance name of at most 16 characters the second column of its row says
      `supported` exactly when the instance has plugins. */
  lemma SupportColumn(instance: string, plugins: seq<string>)
    requires |instance| <= 16
    ensures var row := PluginRow(instance, plugins);
      |row| >= 31 && row[17..31] == Center(if |plugins| > 0 then "supported" else "not supported", 14)
  {
    var pad := PadRight(instance, 16);
    var col := Center(Support(plugins), 14);
    assert |pad| == 16 && |col| == 14;
    var row := pad + " " + col + " " + Join(", ", plugins);
    assert row[17..31] == col;
  }

  /** An instance whose row contains the filter text is listed. */
  lemma {:induction false} ListedIfMatching(filter: string, instances: seq<string>, pluginsOf: string -> Option<seq<string>>, i: nat)
    requires i < |instances|
    requires Contains(PluginRow(instances[i], Shown(pluginsOf(instances[i]))), filter)
    ensures PluginRow(instances[i], Shown(pluginsOf(instances[i]))) in PluginLines(filter, instances, pluginsOf)
  {
    if i > 0 {
      var row := PluginRow(instances[i], Shown(pluginsOf(instances[i])));
      assert instances[1..][i - 1] == instances[i];
      ListedIfMatching(filter, instances[1..], pluginsOf, i - 1);
      TailListed(filter, instances, pluginsOf, row);
    } else {
      HeadListed(filter, instances, pluginsOf);
    }
  }

  lemma HeadListed(filter: string, instances: seq<string>, pluginsOf: string -> Option<seq<string>>)
    requires |instances| > 0 && Contains(PluginRow(instances[0], Shown(pluginsOf(instances[0]))), filter)
    ensures PluginRow(instances[0], Shown(pluginsOf(instances[0]))) in PluginLines(filter, instances, pluginsOf)
  {
  }

  lemma TailListed(filter: string, instances: seq<string>, pluginsOf: string -> Option<seq<string>>, row: string)
    requires |instances| > 0 && row in PluginLines(filter, instances[1..], pluginsOf)
    ensures row in PluginLines(filter, instances, pluginsOf)
  {
  }
}
