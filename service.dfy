/** The systemd adapter of src/mcctl/service.py: queries and actions on the unit
    `<prefix><instance>`. What systemd does with an action is outside the model: the exit code of
    the action and whether the unit runs a second later are given to each call. */
module Service {
  import opened Wrappers

  /** The systemd manager as the adapter sees it. */
  class Systemd {
    /** Units for which `systemctl is-active` exits with 0. */
    var active: set<string>
    /** Units for which `systemctl is-enabled` exits with 0. */
    var enabled: set<string>
    /** The `systemctl` command lines run so far, in order. */
    var commands: seq<seq<string>>

    constructor (active0: set<string>, enabled0: set<string>)
      ensures active == active0 && enabled == enabled0 && commands == []
    {
      active, enabled, commands := active0, enabled0, [];
    }
  }

  /** `shlex.split("systemctl {verb} {unit}")` for a unit name free of white space and quotes. */
  function Command(verb: string, unit: string): seq<string> {
    ["systemctl", verb, unit]
  }

  /** The actions `setStatus` accepts. */
  const Actions: set<string> := {"start", "restart", "stop", "enable", "disable"}
  /** The actions after which the unit's running state is checked. */
  const StateActions: set<string> := {"start", "restart", "stop"}

  /** `isActive`: true iff `systemctl is-active <unit>` exits with 0. */
  method IsActive(sys: Systemd, unitPrefix: string, instance: string) returns (r: bool)
    modifies sys
    ensures r <==> unitPrefix + instance in sys.active
    ensures sys.active == old(sys.active) && sys.enabled == old(sys.enabled)
    ensures sys.commands == old(sys.commands) + [Command("is-active", unitPrefix + instance)]
  {
    sys.commands := sys.commands + [Command("is-active", unitPrefix + instance)];
    r := unitPrefix + instance in sys.active;
  }

  /** `isEnabled`: true iff `systemctl is-enabled <unit>` exits with 0. */
  method IsEnabled(sys: Systemd, unitPrefix: string, instance: string) returns (r: bool)
    modifies sys
    ensures r <==> unitPrefix + instance in sys.enabled
    ensures sys.active == old(sys.active) && sys.enabled == old(sys.enabled)
    ensures sys.commands == old(sys.commands) + [Command("is-enabled", unitPrefix + instance)]
  {
    sys.commands := sys.commands + [Command("is-enabled", unitPrefix + instance)];
    r := unitPrefix + instance in sys.enabled;
  }

  /** The part of `setStatus` both revisions share: run `systemctl <action> <unit>`, fail on a
      non-zero exit code, and after start, restart or stop check the unit is running exactly when
      the action was not `stop`. `exitCode` and `nowActive` are systemd's answer. */
  method Apply(sys: Systemd, unit: string, action: string, exitCode: int, nowActive: bool) returns (r: Result<()>)
    modifies sys
    ensures r.Err? ==> r.error == AssertionError
    ensures exitCode != 0 ==>
      && r.Err? && sys.active == old(sys.active) && sys.enabled == old(sys.enabled)
      && sys.commands == old(sys.commands) + [Command(action, unit)]
    ensures exitCode == 0 ==>
      && sys.enabled == (if action == "enable" then old(sys.enabled) + {unit}
                         else if action == "disable" then old(sys.enabled) - {unit}
                         else old(sys.enabled))
      && sys.active == (if action !in StateActions then old(sys.active)
                        else if nowActive then old(sys.active) + {unit}
                        else old(sys.active) - {unit})
      && sys.commands == old(sys.commands) + [Command(action, unit)]
                         + (if action in StateActions then [Command("is-active", unit)] else [])
      && (r.Ok? <==> action !in StateActions || nowActive == (action != "stop"))
  {
    sys.commands := sys.commands + [Command(action, unit)];
    if exitCode != 0 {
      return Err(AssertionError);
    }
    if action == "enable" {
      sys.enabled := sys.enabled + {unit};
    } else if action == "disable" {
      sys.enabled := sys.enabled - {unit};
    }
    if action in StateActions {
      sys.active := if nowActive then sys.active + {unit} else sys.active - {unit};
      sys.commands := sys.commands + [Command("is-active", unit)];
      if (unit in sys.active) == (action == "stop") {
        return Err(AssertionError);
      }
    }
    r := Ok(());
  }

  /** `setStatus` of src/mcctl/service.py: an action outside the five known ones fails before
      systemctl is run; a known one is applied to the unit `<prefix><instance>` as `Apply`
      states: other units keep their state, enable and disable change only the enabled set, and
      start, restart and stop are checked against the running state systemd reports. */
  method SetStatus(sys: Systemd, unitPrefix: string, instance: string, action: string, exitCode: int, nowActive: bool)
      returns (r: Result<()>)
    modifies sys
    ensures r.Err? ==> r.error == AssertionError
    ensures action !in Actions ==> r.Err? && unchanged(sys)
    ensures action in Actions && exitCode != 0 ==>
      && r.Err? && sys.active == old(sys.active) && sys.enabled == old(sys.enabled)
      && sys.commands == old(sys.commands) + [Command(action, unitPrefix + instance)]
    ensures action in Actions && exitCode == 0 ==>
      && sys.enabled == (if action == "enable" then old(sys.enabled) + {unitPrefix + instance}
                         else if action == "disable" then old(sys.enabled) - {unitPrefix + instance}
                         else old(sys.enabled))
      && sys.active == (if action !in StateActions then old(sys.active)
                        else if nowActive then old(sys.active) + {unitPrefix + instance}
                        else old(sys.active) - {unitPrefix + instance})
      && sys.commands == old(sys.commands) + [Command(action, unitPrefix + instance)]
                         + (if action in StateActions then [Command("is-active", unitPrefix + instance)] else [])
      && (r.Ok? <==> action !in StateActions || nowActive == (action != "stop"))
    ensures r.Ok? && action in {"start", "restart"} ==> unitPrefix + instance in sys.active
    ensures r.Ok? && action == "stop" ==> unitPrefix + instance !in sys.active
    ensures r.Ok? && action == "enable" ==> unitPrefix + instance in sys.enabled
    ensures r.Ok? && action == "disable" ==> unitPrefix + instance !in sys.enabled
  {
    if action !in Actions {
      return Err(AssertionError);
    }
    r := Apply(sys, unitPrefix + instance, action, exitCode, nowActive);
  }
}
