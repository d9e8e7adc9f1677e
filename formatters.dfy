/**
 * The two message formatters of the Duo log grabber: an ArcSight CEF line and a tab-separated
 * line for one administrator or authentication log entry, and `log_event`, which picks one by
 * the configured LOG_METHOD.
 */
module Formatters {
  import opened Wrappers
  import opened Strings
  import opened PyValues
  import opened TimeFormat

  datatype Proxy = Proxy(server: string, port: int)

  /**
   * The settings read from conf.ini, once per run; they replace the script's module globals.
   * The API credentials and host, the proxy, the syslog server and the debug file name are
   * carried but never read here: the API client, the transport and the files are not modelled.
   */
  datatype Config = Config(
    integrationKey: string, secretKey: string, apiHost: string, delta: int,
    proxy: Option<Proxy>,
    vendor: string, product: string, version: string, severity: string, cefVersion: string,
    syslogServer: string, syslogPort: int,
    logMethod: string,
    debug: bool, debugFile: string)

  /**
   * What a formatter reads besides the entry: the configuration, this host's IP address, the
   * run's syslog prefix ("Mmm dd hh:mm:ss HOSTNAME"), and `time.localtime`, where None asks for now.
   */
  datatype Context = Context(cfg: Config, hostIp: string, syslogHeader: string, localtime: Option<int> -> LocalTime)

  /** The `entry_type` argument: which of the two API logs an entry came from. */
  datatype Category = AdminLog | AuthLog {
    function Name(): string {
      if AdminLog? then "admin_log" else "auth_log"
    }
  }

  /** The exceptions that abort a run: a missing field, a field of the wrong type, or a failing API call. */
  datatype Error = KeyError(key: string) | TypeError

  /** A log entry as the API client decodes it: field name to value. */
  type Entry = map<string, Value>

  /** `entry[key]`. */
  function Get(e: Entry, key: string): Result<Value, Error>
  {
    if key in e then Ok(e[key]) else Err(KeyError(key))
  }

  /**
   * Reading `entry[k]` for each key in turn: Ok when all are present, else the KeyError of the
   * first one missing.
   */
  function Require(e: Entry, keys: seq<string>): (r: Result<(), Error>)
    ensures r.Ok? <==> forall k :: k in keys ==> k in e
    ensures r.Err? ==>
      (exists i :: 0 <= i < |keys| && r.error == KeyError(keys[i]) && keys[i] !in e && forall j :: 0 <= j < i ==> keys[j] in e)
  {
    if |keys| == 0 then Ok(())
    else if keys[0] !in e then Err(KeyError(keys[0]))
    else
      var r := Require(e, keys[1..]);
      if r.Err? then
        var i :| 0 <= i < |keys| - 1 && r.error == KeyError(keys[1..][i]) && keys[1..][i] !in e
          && forall j :: 0 <= j < i ==> keys[1..][j] in e;
        assert keys[i + 1] == keys[1..][i];
        r
      else r
  }

  /** `entry.get(key)`: None when the field is absent. */
  function GetOrNone(e: Entry, key: string): Value
  {
    if key in e then e[key] else NoneValue
  }

  /** A value used where Python concatenates or joins strings: a TypeError unless it is text. */
  function AsText(v: Value): Result<string, Error>
  {
    if v.Text? then Ok(v.s) else Err(TypeError)
  }

  /** `AsText` on each value in turn; the first non-text value raises. */
  function TextsOf(vs: seq<Value>): (r: Result<seq<string>, Error>)
    ensures r.Ok? <==> forall i :: 0 <= i < |vs| ==> vs[i].Text?
    ensures r.Ok? ==> |r.value| == |vs| && forall i :: 0 <= i < |vs| ==> r.value[i] == vs[i].s
    ensures r.Err? ==> r.error == TypeError
  {
    if |vs| == 0 then Ok([])
    else
      var first :- AsText(vs[0]);
      var rest :- TextsOf(vs[1..]);
      Ok([first] + rest)
  }

  /**
   * `str(entry['timestamp'] * 1000)`: an integer (or bool) timestamp in milliseconds; a string
   * timestamp is repeated a thousand times; None cannot be multiplied.
   */
  function Millis(v: Value): (r: Result<string, Error>)
    ensures r.Ok? <==> !v.NoneValue?
    ensures v.Int? && v.i != 0 ==> r == Ok(IntToDecimal(v.i) + "000")
  {
    match v
    case Int(i) =>
      if i != 0 then MillisDecimal(i); Ok(IntToDecimal(i * 1000)) else Ok(IntToDecimal(i * 1000))
    case Bool(b) => Ok(IntToDecimal((if b then 1 else 0) * 1000))
    case Text(s, _) => Ok(Repeat(s, 1000))
    case NoneValue => Err(TypeError)
  }

  /** The argument `time.localtime` receives: the timestamp, or None for the current time; text is a TypeError. */
  function LocaltimeArg(v: Value): Result<Option<int>, Error>
  {
    match v
    case Int(i) => Ok(Some(i))
    case Bool(b) => Ok(Some(if b then 1 else 0))
    case NoneValue => Ok(None)
    case Text(_, _) => Err(TypeError)
  }

  /** `time.strftime('%b %d %H:%M:%S', time.localtime(entry['timestamp']))`. */
  function EntryTime(ctx: Context, v: Value): (r: Result<string, Error>)
    ensures r.Ok? <==> !v.Text?
    ensures r.Ok? ==> |r.value| == 15 && ParseSyslogTime(r.value).Some?
    ensures r.Err? ==> r.error == TypeError
  {
    var arg :- LocaltimeArg(v);
    SyslogTimeRoundTrip(ctx.localtime(arg));
    Ok(SyslogTime(ctx.localtime(arg)))
  }

  // ---------------------------------------------------------------- CEF

  /** The seven CEF header fields: version, vendor, product, product version, signature id, name, severity. */
  function HeaderFields(cfg: Config, signature: string, name: string): seq<string>
  {
    [cfg.cefVersion, cfg.vendor, cfg.product, cfg.version, signature, name, cfg.severity]
  }

  /** `'|'.join(fields) + '|'`. */
  function CefHeader(cfg: Config, signature: string, name: string): string
  {
    Join("|", HeaderFields(cfg, signature, name)) + "|"
  }

  /** The extension keys of each category; `ca3Label=` is the source's spelling. */
  function CefKeys(cat: Category): (ks: seq<string>)
    ensures forall i, j :: 0 <= i < j < |ks| ==> ks[i] != ks[j]
    ensures |ks| == if cat.AdminLog? then 4 else 11
  {
    if cat.AdminLog? then ["duser=", "rt=", "description=", "dhost="]
    else ["rt=", "src=", "dhost=", "duser=", "outcome=", "cs1Label=", "cs1=", "cs2Label=", "cs2=", "ca3Label=", "cs3="]
  }

  function Keys(d: seq<(string, Value)>): seq<string>
  {
    seq(|d|, i requires 0 <= i < |d| => d[i].0)
  }

  function Values(d: seq<(string, Value)>): seq<Value>
  {
    seq(|d|, i requires 0 <= i < |d| => d[i].1)
  }

  /** The fields the CEF `extension` dict reads after the timestamp, in source order. */
  const CefAuthReads: seq<string> := ["ip", "host", "username", "result", "new_enrollment", "factor", "integration"]

  /** The `extension` dict literal of log_to_cef, its values evaluated in source order. */
  function CefDict(e: Entry, cat: Category): (r: Result<seq<(string, Value)>, Error>)
    ensures r.Ok? ==> |r.value| == |CefKeys(cat)| && "timestamp" in e && !e["timestamp"].NoneValue?
    ensures r.Err? ==> r.error.KeyError? || r.error.TypeError?
  {
    if cat.AdminLog? then AdminDict(e) else AuthDict(e)
  }

  /** The admin `extension` dict: username and timestamp are read first, then host. */
  function AdminDict(e: Entry): (r: Result<seq<(string, Value)>, Error>)
    ensures r.Ok? ==> |r.value| == 4 && "timestamp" in e && !e["timestamp"].NoneValue?
    ensures r.Err? ==> r.error.KeyError? || r.error.TypeError?
  {
    var _ :- Require(e, ["username", "timestamp"]);
    var rt :- Millis(e["timestamp"]);
    var _ :- Require(e, ["host"]);
    Ok([("duser=", Text(RenderUser(e["username"]), false)),
        ("rt=", Text(rt, false)),
        ("description=", Text(PyStr(GetOrNone(e, "description")), false)),
        ("dhost=", e["host"])])
  }

  /** The auth `extension` dict: the timestamp is read first, then the other fields in order. */
  function AuthDict(e: Entry): (r: Result<seq<(string, Value)>, Error>)
    ensures r.Ok? ==> |r.value| == 11 && "timestamp" in e && !e["timestamp"].NoneValue?
    ensures r.Err? ==> r.error.KeyError? || r.error.TypeError?
  {
    var _ :- Require(e, ["timestamp"]);
    var rt :- Millis(e["timestamp"]);
    var _ :- Require(e, CefAuthReads);
    Ok([("rt=", Text(rt, false)),
        ("src=", e["ip"]),
        ("dhost=", e["host"]),
        ("duser=", Text(RenderUser(e["username"]), false)),
        ("outcome=", e["result"]),
        ("cs1Label=", Text("new_enrollment", false)),
        ("cs1=", Text(PyStr(e["new_enrollment"]), false)),
        ("cs2Label=", Text("factor", false)),
        ("cs2=", e["factor"]),
        ("ca3Label=", Text("integration", false)),
        ("cs3=", e["integration"])])
  }

  /** `key + value` for each extension entry. */
  function Concat(keys: seq<string>, values: seq<string>): (r: seq<string>)
    requires |keys| == |values|
  {
    seq(|keys|, i requires 0 <= i < |keys| => keys[i] + values[i])
  }

  /** log_to_cef: the syslog prefix, the CEF header and the space-separated extension, or the exception raised. */
  function LogToCef(ctx: Context, e: Entry, cat: Category): (r: Result<string, Error>)
    ensures r.Ok? ==> |r.value| > |ctx.syslogHeader| && r.value[..|ctx.syslogHeader| + 1] == ctx.syslogHeader + " "
    ensures r.Err? ==> r.error.KeyError? || r.error.TypeError?
  {
    var eventtype :- Get(e, "eventtype");
    var action :- if cat.AdminLog? then Get(e, "action") else Ok(eventtype);
    var extension :- CefDict(e, cat);
    var signature :- AsText(eventtype);
    var name :- AsText(action);
    var values :- TextsOf(Values(extension));
    var msg := CefHeader(ctx.cfg, signature, name) + Join(" ", Concat(Keys(extension), values));
    JoinPair(" ", ctx.syslogHeader, msg);
    Ok(Join(" ", [ctx.syslogHeader, msg]))
  }

  // ---------------------------------------------------------------- TSV

  /** The fields the TSV `data` dict reads, in source order. */
  const TsvAdminReads: seq<string> := ["username", "host", "action"]
  const TsvAuthReads: seq<string> := ["ip", "factor", "username", "result", "integration"]

  /** The `data` values of log_to_tsv in the order of its `order` list, evaluated in source order. */
  function TsvData(e: Entry, cat: Category): (r: Result<seq<Value>, Error>)
    ensures r.Ok? ==> |r.value| == if cat.AdminLog? then 4 else 5
  {
    if cat.AdminLog? then
      var _ :- Require(e, TsvAdminReads);
      Ok([Text(RenderUser(e["username"]), false), e["host"], Text(PyStr(GetOrNone(e, "description")), false), e["action"]])
    else
      var _ :- Require(e, TsvAuthReads);
      Ok([e["ip"], e["factor"], Text(RenderUser(e["username"]), false), e["result"], e["integration"]])
  }

  /** log_to_tsv: the entry's local time, this host's IP, the `duo_` tag and the fields, tab-separated. */
  function LogToTsv(ctx: Context, e: Entry, cat: Category): (r: Result<string, Error>)
    ensures r.Ok? ==> |r.value| > 16 && r.value[15] == ' ' && ParseSyslogTime(r.value[..15]).Some?
    ensures r.Err? ==> r.error.KeyError? || r.error.TypeError?
  {
    var timestamp :- Get(e, "timestamp");
    var stamp :- EntryTime(ctx, timestamp);
    var data :- TsvData(e, cat);
    var fields :- TextsOf(data);
    Ok(TsvText(stamp, ctx.hostIp, cat.Name(), fields))
  }

  /** The TSV line: the stamp, a space, the host IP, the `duo_` tag and the fields, tab-separated. */
  function TsvText(stamp: string, hostIp: string, entryType: string, fields: seq<string>): (line: string)
    requires |stamp| == 15
    ensures |line| > 16 && line[..15] == stamp && line[15] == ' '
  {
    var line := stamp + " " + hostIp + "\t" + ("duo_" + entryType) + "\t" + Join("\t", fields);
    assert line[..15] == stamp;
    line
  }

  /** log_event: the line LOG_METHOD asks for, or nothing for any other method. */
  function LogEvent(ctx: Context, e: Entry, cat: Category): (r: Result<Option<string>, Error>)
    ensures ctx.cfg.logMethod != "cef" && ctx.cfg.logMethod != "tsv" ==> r == Ok(None)
    ensures (ctx.cfg.logMethod == "cef" || ctx.cfg.logMethod == "tsv") && r.Ok? ==> r.value.Some?
    ensures r.Err? ==> r.error.KeyError? || r.error.TypeError?
  {
    if ctx.cfg.logMethod == "cef" then
      var line :- LogToCef(ctx, e, cat);
      Ok(Some(line))
    else if ctx.cfg.logMethod == "tsv" then
      var line :- LogToTsv(ctx, e, cat);
      Ok(Some(line))
    else
      Ok(None)
  }
}
