/** The properties store of the legacy src/mcctl/modules/config.py. Its `propertiesToDict`,
    `getProperties` and `setProperties` are line for line those of src/mcctl/config.py and are
    the members of `Config`; only the EULA dialog differs, in the words it accepts. */
module LegacyConfig {
  import opened Wrappers
  import opened Text
  import opened Host
  import Config

  /** `acceptEula` of the legacy module: answered with `accept` or `abort`. */
  method AcceptEula(fs: FileSystem, instancePath: Path, answers: seq<string>) returns (r: Result<Option<bool>>)
    modifies fs
    ensures fs.dirs == old(fs.dirs) && fs.modes == old(fs.modes)
    ensures var path := instancePath + ["eula.txt"];
      if !old(fs.Exists(path)) then r == Err(AssertionError) && fs.files == old(fs.files)
      else if path in old(fs.dirs) then r == Err(IsADirectoryError) && fs.files == old(fs.files)
      else
        var lines := ReadLines(old(fs.files)[path]);
        match Config.SettingLine(lines)
        case None => r == Ok(None) && fs.files == old(fs.files)
        case Some(i) =>
          match Answer(answers, {"accept", "abort"})
          case Err(e) => r == Err(e) && fs.files == old(fs.files)
          case Ok(a) =>
            && r == Ok(Some(Lower(a) == "accept"))
            && fs.files == if Lower(a) == "accept" then old(fs.files)[path := Config.AcceptedText(lines, i)] else old(fs.files)
  {
    r := Config.EulaDialog(fs, instancePath, answers, "accept", "abort");
  }
}
