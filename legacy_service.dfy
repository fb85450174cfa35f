/** The legacy systemd adapter of src/mcctl/modules/service.py: a fixed unit prefix, no check of
    the action, and the instance table. */
module LegacyService {
  import opened Wrappers
  import opened Text
  import opened Service

  /** `unitName`. */
  const UnitPrefix: string := "mcserver@"

  /** `setStatus` of the legacy module: any action is passed on to systemctl for the unit
      `mcserver@<instance>`, with the effect `Apply` states. */
  method SetStatus(sys: Systemd, instance: string, action: string, exitCode: int, nowActive: bool) returns (r: Result<()>)
    modifies sys
    ensures r.Err? ==> r.error == AssertionError
    ensures r.Ok? <==> exitCode == 0 && (action !in StateActions || nowActive == (action != "stop"))
    ensures exitCode != 0 ==>
      && sys.active == old(sys.active) && sys.enabled == old(sys.enabled)
      && sys.commands == old(sys.commands) + [Command(action, UnitPrefix + instance)]
    ensures exitCode == 0 ==>
      && sys.enabled == (if action == "enable" then old(sys.enabled) + {UnitPrefix + instance}
                         else if action == "disable" then old(sys.enabled) - {UnitPrefix + instance}
                         else old(sys.enabled))
      && sys.active == (if action !in StateActions then old(sys.active)
                        else if nowActive then old(sys.active) + {UnitPrefix + instance}
                        else old(sys.active) - {UnitPrefix + instance})
      && sys.commands == old(sys.commands) + [Command(action, UnitPrefix + instance)]
                         + (if action in StateActions then [Command("is-active", UnitPrefix + instance)] else [])
    ensures r.Ok? && action in {"start", "restart"} ==> UnitPrefix + instance in sys.active
    ensures r.Ok? && action == "stop" ==> UnitPrefix + instance !in sys.active
  {
    r := Apply(sys, UnitPrefix + instance, action, exitCode, nowActive);
  }

  /** The `template % (...)` row of one instance: name, server type, status, persistence. */
  function Row(name: string, active: bool, enabled: bool): string {
    PadRight(name, 15) + PadRight("Server Jar", 20) + PadRight(if active then "Active" else "Inactive", 12)
      + PadRight(if enabled then "True" else "False", 12) + "\n"
  }

  /** The table header `getInstanceList` prints. */
  function Header(): string {
    PadRight("Name", 15) + PadRight("Server Type", 20) + PadRight("Status", 12) + PadRight("Persistent", 12)
  }

  /** The row of the instance `name` for the given unit states. */
  function RowFn(active: set<string>, enabled: set<string>): string -> string {
    name => Row(name, UnitPrefix + name in active, UnitPrefix + name in enabled)
  }

  /** `f` applied to each element of `s`. */
  function Each(s: seq<string>, f: string -> string): seq<string> {
    seq(|s|, k requires 0 <= k < |s| => f(s[k]))
  }

  lemma EachSnoc(s: seq<string>, f: string -> string, i: nat)
    requires i < |s|
    ensures Each(s[..i + 1], f) == Each(s[..i], f) + [f(s[i])]
  {
    var longer := Each(s[..i + 1], f);
    var shorter := Each(s[..i], f);
    forall k | 0 <= k < |shorter| ensures longer[k] == shorter[k] {
      assert s[..i + 1][k] == s[..i][k];
    }
  }

  lemma EachCons(s: seq<string>, f: string -> string)
    requires |s| > 0
    ensures Each(s, f) == [f(s[0])] + Each(s[1..], f)
  {
    var tail := Each(s[1..], f);
    forall k | 0 <= k < |tail| ensures tail[k] == Each(s, f)[k + 1] {
      assert s[1..][k] == s[k + 1];
    }
  }

  /** The rows for the instances listed in `servers`, in that order. */
  function Rows(active: set<string>, enabled: set<string>, servers: seq<string>): seq<string> {
    Each(servers, RowFn(active, enabled))
  }

  /** `getInstanceList`: `servers` are the names of the entries of the instances directory, in the
      order the directory lists them. `all` lists every instance, a known name its own row, an
      unknown name nothing below the header. */
  method InstanceList(sys: Systemd, servers: seq<string>, instance: string) returns (header: string, contents: string)
    modifies sys
    ensures sys.active == old(sys.active) && sys.enabled == old(sys.enabled)
    ensures header == Header()
    ensures instance == "all" ==> contents == Concat(Rows(sys.active, sys.enabled, servers))
    ensures instance != "all" && instance in servers ==>
              contents == Row(instance, UnitPrefix + instance in sys.active, UnitPrefix + instance in sys.enabled)
    ensures instance != "all" && instance !in servers ==> contents == ""
  {
    header := Header();
    contents := "";
    if instance == "all" {
      contents := AllRows(sys, servers);
    } else if instance in servers {
      var active := IsActive(sys, UnitPrefix, instance);
      var enabled := IsEnabled(sys, UnitPrefix, instance);
      contents := Row(instance, active, enabled);
    }
  }

  /** The loop of `getInstanceList` over every instance. */
  method AllRows(sys: Systemd, servers: seq<string>) returns (contents: string)
    modifies sys
    ensures sys.active == old(sys.active) && sys.enabled == old(sys.enabled)
    ensures contents == Concat(Rows(sys.active, sys.enabled, servers))
  {
    contents := "";
    var i := 0;
    while i < |servers|
      invariant 0 <= i <= |servers|
      invariant sys.active == old(sys.active) && sys.enabled == old(sys.enabled)
      invariant contents == Concat(Rows(sys.active, sys.enabled, servers[..i]))
    {
      var active := IsActive(sys, UnitPrefix, servers[i]);
      var enabled := IsEnabled(sys, UnitPrefix, servers[i]);
      RowsSnoc(sys.active, sys.enabled, servers, i);
      contents := contents + Row(servers[i], active, enabled);
      i := i + 1;
    }
    assert servers[..|servers|] == servers;
  }

  lemma RowsSnoc(active: set<string>, enabled: set<string>, servers: seq<string>, i: nat)
    requires i < |servers|
    ensures Concat(Rows(active, enabled, servers[..i + 1])) ==
              Concat(Rows(active, enabled, servers[..i])) + Row(servers[i], UnitPrefix + servers[i] in active, UnitPrefix + servers[i] in enabled)
  {
    EachSnoc(servers, RowFn(active, enabled), i);
    ConcatSnoc(Rows(active, enabled, servers[..i]), RowFn(active, enabled)(servers[i]));
  }

  /** Each row is one line: the table for `all` has exactly one line per instance, for names
      without line breaks. */
  lemma {:induction false} RowsAreLines(active: set<string>, enabled: set<string>, servers: seq<string>)
    requires forall i :: 0 <= i < |servers| ==> '\n' !in servers[i]
    ensures Lines(Concat(Rows(active, enabled, servers))) == Rows(active, enabled, servers)
    decreases |servers|
  {
    if |servers| > 0 {
      var rows := Rows(active, enabled, servers);
      var tail := Rows(active, enabled, servers[1..]);
      EachCons(servers, RowFn(active, enabled));
      var row := Row(servers[0], UnitPrefix + servers[0] in active, UnitPrefix + servers[0] in enabled);
      assert rows == [row] + tail;
      RowBody(servers[0], UnitPrefix + servers[0] in active, UnitPrefix + servers[0] in enabled);
      var body := row[..|row| - 1];
      assert row == body + "\n";
      RowsAreLines(active, enabled, servers[1..]);
      assert Concat(rows) == row + Concat(tail);
      LinesCons(body, Concat(tail));
    }
  }

  /** A row is its cells, free of line breaks, and one `\n`. */
  lemma RowBody(name: string, active: bool, enabled: bool)
    requires '\n' !in name
    ensures var r := Row(name, active, enabled);
      |r| > 0 && r == r[..|r| - 1] + "\n" && '\n' !in r[..|r| - 1]
  {
    var s := if active then "Active" else "Inactive";
    var e := if enabled then "True" else "False";
    var r := Row(name, active, enabled);
    var cells := PadRight(name, 15) + PadRight("Server Jar", 20) + PadRight(s, 12) + PadRight(e, 12);
    assert r == cells + "\n";
    assert r[..|r| - 1] == cells;
    NoBreakPad(name, 15);
    NoBreakPad("Server Jar", 20);
    NoBreakPad(s, 12);
    NoBreakPad(e, 12);
  }

  lemma NoBreakPad(s: string, w: nat)
    requires '\n' !in s
    ensures '\n' !in PadRight(s, w)
  {
  }

  /** For a name of at most 15 characters the columns sit at fixed offsets: name at 0, status at
      35, persistence at 47. */
  lemma RowColumns(name: string, active: bool, enabled: bool)
    requires |name| <= 15
    ensures var r := Row(name, active, enabled);
      && |r| == 60
      && r[..15] == PadRight(name, 15)
      && r[35..47] == PadRight(if active then "Active" else "Inactive", 12)
      && r[47..59] == PadRight(if enabled then "True" else "False", 12)
  {
  }
}
