/** The readiness probe of src/mcctl/status.py. The Minecraft status query is outside the model:
    its answer for a port is given as a `Probe`. */
module Status {
  import opened Wrappers
  import opened Text
  import opened Host
  import Config

  /** What `server.status()` does: answer with the player count, protocol and version name, find
      nothing listening, or raise. */
  datatype Probe =
    | Reply(online: int, proto: int, version: string)
    | Unreachable
    | Raised(e: Error)

  /** The dict `get_simple_status` returns. */
  datatype SimpleStatus = SimpleStatus(online: int, proto: int, version: string)

  /** The status shown for a server that cannot be reached. */
  const Offline: SimpleStatus := SimpleStatus(0, -1, "n/a")

  /** `get_simple_status`: the probe's answer, or the offline status instead of a connection
      error or any other `OSError` (`socket.error`). */
  function SimpleStatusOf(probe: Probe): (r: Result<SimpleStatus>)
    ensures r.Err? <==> probe.Raised? && !IsOSError(probe.e)
    ensures r.Err? ==> r.error == probe.e
    ensures r.Ok? && !probe.Reply? ==> r.value == Offline
    ensures probe.Reply? ==> r.Ok? && r.value.proto == probe.proto
  {
    match probe
    case Reply(online, proto, version) => Ok(SimpleStatus(online, proto, version))
    case Unreachable => Ok(Offline)
    case Raised(e) => if IsOSError(e) then Ok(Offline) else Err(e)
  }

  /** The last part of `is_ready`: ready iff the server answers with a protocol above -1, and not
      ready after a connection error or any other `OSError`. This agrees with the displayed
      status: ready exactly when the protocol shown is above -1. */
  function ReadyOf(probe: Probe): (r: Result<bool>)
    ensures r.Err? <==> SimpleStatusOf(probe).Err?
    ensures r.Err? ==> r.error == SimpleStatusOf(probe).error
    ensures r.Ok? ==> (r.value <==> SimpleStatusOf(probe).value.proto > -1)
  {
    match probe
    case Reply(_, proto, _) => Ok(proto > -1)
    case Unreachable => Ok(false)
    case Raised(e) => if IsOSError(e) then Ok(false) else Err(e)
  }

  /** Every `OSError` the probe raises reads as an unreachable server, in the status shown and in
      the readiness. */
  lemma OSErrorIsOffline(e: Error)
    requires IsOSError(e)
    ensures SimpleStatusOf(Raised(e)) == SimpleStatusOf(Unreachable) == Ok(Offline)
    ensures ReadyOf(Raised(e)) == ReadyOf(Unreachable) == Ok(false)
  {
  }

  // ---------------------------------------------------------------------------------------------
  // `int(text)` for the port

  predicate IsDigit(c: char) {
    '0' <= c <= '9'
  }

  /** The value of a string of decimal digits. */
  function DigitsValue(s: string): (r: nat)
    requires forall i :: 0 <= i < |s| ==> IsDigit(s[i])
    decreases |s|
  {
    if |s| == 0 then 0
    else
      assert IsDigit(s[|s| - 1]);
      DigitsValue(s[..|s| - 1]) * 10 + (s[|s| - 1] as int - '0' as int)
  }

  /** `s.strip()`. */
  function StripSpace(s: string): (r: string)
    ensures |r| <= |s|
    ensures r == [] || (!IsSpace(r[0]) && !IsSpace(r[|r| - 1]))
    decreases |s|
  {
    if |s| > 0 && IsSpace(s[0]) then StripSpace(s[1..]) else RStrip(s)
  }

  /** `int(s)` for a decimal string: white space around it, an optional sign, and at least one
      ASCII digit; `None` where Python raises `ValueError`. */
  function PyInt(s: string): (r: Option<int>)
  {
    var t := StripSpace(s);
    var neg := |t| > 0 && t[0] == '-';
    var digits := if |t| > 0 && (t[0] == '-' || t[0] == '+') then t[1..] else t;
    if |digits| > 0 && forall i :: 0 <= i < |digits| ==> IsDigit(digits[i])
    then
      var v: int := DigitsValue(digits);
      Some(if neg then -v else v)
    else None
  }

  /** The decimal text of a natural number, as `str(n)` writes it. */
  function Decimal(n: nat): (r: string)
    ensures |r| > 0 && forall i :: 0 <= i < |r| ==> IsDigit(r[i])
  {
    var d := ['0' + (n % 10) as char];
    if n < 10 then d else Decimal(n / 10) + d
  }

  lemma {:induction false} DigitsOfDecimal(n: nat)
    ensures DigitsValue(Decimal(n)) == n
  {
    var d := ['0' + (n % 10) as char];
    if n >= 10 {
      DigitsOfDecimal(n / 10);
      var s := Decimal(n / 10) + d;
      assert s[..|s| - 1] == Decimal(n / 10);
    }
  }

  /** A port written as `str(port)` reads back as that port. */
  lemma PortRoundTrip(port: nat)
    ensures PyInt(Decimal(port)) == Some(port)
  {
    DigitsOfDecimal(port);
    var s := Decimal(port);
    assert StripSpace(s) == s by {
      assert !IsSpace(s[0]);
      assert RStrip(s) == s by { assert !IsSpace(s[|s| - 1]); }
    }
  }

  // ---------------------------------------------------------------------------------------------
  // is_ready

  /** `is_ready` for the instance directory `instancePath`: read `server-port` from its
      `server.properties` (a missing key is `int(None)`, a `TypeError`; a value that is not a
      number a `ValueError`) and ask the server listening there; `probe` answers for each port. */
  function IsReady(files: map<Path, string>, dirs: set<Path>, instancePath: Path, probe: int -> Probe): (r: Result<bool>)
    ensures r == Ok(true) ==> exists port :: probe(port).Reply? && probe(port).proto > -1
  {
    var cfgPath := instancePath + ["server.properties"];
    if cfgPath in dirs then Err(IsADirectoryError)
    else if cfgPath !in files then Err(FileNotFoundError)
    else
      var cfg :- Config.ParseContent(files[cfgPath]);
      match Config.Get(cfg, "server-port")
      case None => Err(TypeError)
      case Some(text) =>
        match PyInt(text)
        case None => Err(ValueError)
        case Some(port) => ReadyOf(probe(port))
  }

  /** With `server-port=<port>` in a readable properties file the readiness is the probe's on
      that port. */
  lemma IsReadyPort(files: map<Path, string>, dirs: set<Path>, instancePath: Path, probe: int -> Probe, port: nat)
    requires instancePath + ["server.properties"] !in dirs
    requires instancePath + ["server.properties"] in files
    requires Config.ParseContent(files[instancePath + ["server.properties"]]).Ok?
    requires Config.Get(Config.ParseContent(files[instancePath + ["server.properties"]]).value, "server-port") == Some(Decimal(port))
    ensures IsReady(files, dirs, instancePath, probe) == ReadyOf(probe(port))
  {
    PortRoundTrip(port);
  }
}
