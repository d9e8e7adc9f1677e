/**
 * One run of the grabber: the query window chosen from DELTA, the two API logs fetched, and every
 * entry handed to log_event, administrator entries first; `send_syslog` records each line it emits
 * and, with DEBUG set, mirrors it to the debug file first.
 */
module Grabber {
  import opened Wrappers
  import opened Strings
  import opened TimeFormat
  import opened Formatters
  import opened FormatSpec

  /**
   * The `mintime` argument of the two API calls: none at all when DELTA is 0 (every log is
   * fetched), otherwise DELTA seconds before the run's UTC time.
   */
  function QueryWindow(utcDate: int, delta: int): (since: Option<int>)
    ensures since.None? <==> delta == 0
    ensures since.Some? ==> since.value + delta == utcDate
  {
    var mintime := utcDate - delta;
    if mintime == utcDate then None else Some(mintime)
  }

  /** `' '.join([syslog_date_time, HOSTNAME])`: the prefix of every CEF line of the run. */
  function SyslogHeader(now: LocalTime, hostname: string): (r: string)
    ensures |r| == 16 + |hostname| && r[15] == ' ' && r[16..] == hostname
    ensures ParseSyslogTime(r[..15]) == Some(now)
  {
    var stamp := SyslogTime(now);
    SyslogTimeRoundTrip(now);
    var r := stamp + " " + hostname;
    assert r[..15] == stamp && r[16..] == hostname;
    assert Join(" ", [stamp, hostname]) == r;
    Join(" ", [stamp, hostname])
  }

  /** The API call for one log: the entries since `mintime`, or the exception the client raised. */
  type Fetch = (Category, Option<int>) -> Result<seq<Entry>, Error>

  /** What log_event does with one entry: a line to send, nothing, or the exception it raises. */
  type Event = Result<Option<string>, Error>

  /** What a run emits: the lines sent, in order, and the exception that stopped it, if any. */
  datatype Outcome = Outcome(messages: seq<string>, failure: Option<Error>)

  /**
   * A loop over log entries with their events: each line is sent in turn, and the first event
   * that raises ends the loop, keeping the lines sent before it.
   */
  function Deliver(events: seq<Event>): (o: Outcome)
    ensures |o.messages| <= |events|
  {
    if |events| == 0 then Outcome([], None)
    else
      var before := Deliver(events[..|events| - 1]);
      if before.failure.Some? then before
      else match events[|events| - 1]
        case Err(err) => Outcome(before.messages, Some(err))
        case Ok(None) => before
        case Ok(Some(line)) => Outcome(before.messages + [line], None)
  }

  /** log_event applied to each entry of a log. */
  function Events(ctx: Context, entries: seq<Entry>, cat: Category): (evs: seq<Event>)
    ensures |evs| == |entries| && forall i :: 0 <= i < |entries| ==> evs[i] == LogEvent(ctx, entries[i], cat)
  {
    seq(|entries|, i requires 0 <= i < |entries| => LogEvent(ctx, entries[i], cat))
  }

  /** `for entry in log: log_event(entry, entry_type)`. */
  function Emit(ctx: Context, entries: seq<Entry>, cat: Category): (o: Outcome)
    ensures |o.messages| <= |entries|
  {
    Deliver(Events(ctx, entries, cat))
  }

  /** Events that all send nothing deliver nothing and raise nothing. */
  lemma {:induction false} DeliverNothing(events: seq<Event>)
    requires forall i :: 0 <= i < |events| ==> events[i] == Ok(None)
    ensures Deliver(events) == Outcome([], None)
  {
    if |events| > 0 {
      DeliverNothing(events[..|events| - 1]);
    }
  }

  /** Events that all carry a line deliver exactly those lines, in order. */
  lemma {:induction false} DeliverEach(events: seq<Event>)
    requires forall i :: 0 <= i < |events| ==> events[i].Ok? && events[i].value.Some?
    ensures Deliver(events).failure.None?
    ensures |Deliver(events).messages| == |events|
    ensures forall i :: 0 <= i < |events| ==> events[i] == Ok(Some(Deliver(events).messages[i]))
  {
    if |events| > 0 {
      var init := events[..|events| - 1];
      DeliverEach(init);
      var o := Deliver(events);
      assert o.messages == Deliver(init).messages + [events[|events| - 1].value.value];
      forall i | 0 <= i < |events|
        ensures events[i] == Ok(Some(o.messages[i]))
      {
        if i < |init| {
          assert events[i] == init[i];
        }
      }
    }
  }

  /**
   * A loop fails exactly when some event raises; it then stops at the first such event, with
   * its exception, having sent the lines of the events before it.
   */
  lemma {:induction false} DeliverStops(events: seq<Event>)
    ensures Deliver(events).failure.None? <==> forall i :: 0 <= i < |events| ==> events[i].Ok?
    ensures Deliver(events).failure.Some? ==>
      exists k :: 0 <= k < |events| && events[k] == Err(Deliver(events).failure.value)
        && (forall j :: 0 <= j < k ==> events[j].Ok?)
        && Deliver(events).messages == Deliver(events[..k]).messages
  {
    if |events| > 0 {
      var init := events[..|events| - 1];
      var last := |events| - 1;
      DeliverStops(init);
      assert forall i :: 0 <= i < |init| ==> events[i] == init[i];
      if Deliver(init).failure.Some? {
        var k :| 0 <= k < |init| && init[k] == Err(Deliver(init).failure.value)
          && (forall j :: 0 <= j < k ==> init[j].Ok?)
          && Deliver(init).messages == Deliver(init[..k]).messages;
        assert init[..k] == events[..k];
      } else if events[last].Err? {
        assert events[..last] == init;
      }
    }
  }

  /** Every line delivered is the line of one of the events. */
  lemma {:induction false} DeliverFrom(events: seq<Event>)
    ensures forall m :: m in Deliver(events).messages ==> exists j :: 0 <= j < |events| && events[j] == Ok(Some(m))
  {
    if |events| > 0 {
      var init := events[..|events| - 1];
      DeliverFrom(init);
      forall m | m in Deliver(events).messages
        ensures exists j :: 0 <= j < |events| && events[j] == Ok(Some(m))
      {
        if m in Deliver(init).messages {
          var j :| 0 <= j < |init| && init[j] == Ok(Some(m));
          assert events[j] == init[j];
        } else {
          assert events[|events| - 1] == Ok(Some(m));
        }
      }
    }
  }

  /** Once a prefix of the events has raised, the rest changes nothing. */
  lemma {:induction false} DeliverSticky(events: seq<Event>, i: int)
    requires 0 <= i <= |events|
    requires Deliver(events[..i]).failure.Some?
    ensures Deliver(events) == Deliver(events[..i])
    decreases |events| - i
  {
    if i < |events| {
      assert events[..i + 1][..i] == events[..i];
      DeliverSticky(events, i + 1);
    } else {
      assert events[..i] == events;
    }
  }

  /** With a LOG_METHOD other than "cef" or "tsv", nothing is sent and nothing is raised. */
  lemma EmitSilent(ctx: Context, entries: seq<Entry>, cat: Category)
    requires ctx.cfg.logMethod != "cef" && ctx.cfg.logMethod != "tsv"
    ensures Emit(ctx, entries, cat) == Outcome([], None)
  {
    DeliverNothing(Events(ctx, entries, cat));
  }

  /**
   * With LOG_METHOD "cef" or "tsv" and every entry formatting, exactly one line is sent per
   * entry, in the order of the log.
   */
  lemma EmitEach(ctx: Context, entries: seq<Entry>, cat: Category)
    requires ctx.cfg.logMethod == "cef" || ctx.cfg.logMethod == "tsv"
    requires forall i :: 0 <= i < |entries| ==> LogEvent(ctx, entries[i], cat).Ok?
    ensures Emit(ctx, entries, cat).failure.None?
    ensures |Emit(ctx, entries, cat).messages| == |entries|
    ensures forall i :: 0 <= i < |entries| ==> LogEvent(ctx, entries[i], cat) == Ok(Some(Emit(ctx, entries, cat).messages[i]))
  {
    DeliverEach(Events(ctx, entries, cat));
  }

  /** In "cef" mode every line starts with the run's syslog prefix and a space. */
  lemma CefPrefixed(ctx: Context, entries: seq<Entry>, cat: Category)
    requires ctx.cfg.logMethod == "cef"
    ensures forall m :: m in Emit(ctx, entries, cat).messages ==>
      |m| > |ctx.syslogHeader| && m[..|ctx.syslogHeader| + 1] == ctx.syslogHeader + " "
  {
    var events := Events(ctx, entries, cat);
    DeliverFrom(events);
    forall m | m in Emit(ctx, entries, cat).messages
      ensures |m| > |ctx.syslogHeader| && m[..|ctx.syslogHeader| + 1] == ctx.syslogHeader + " "
    {
      var j :| 0 <= j < |events| && events[j] == Ok(Some(m));
      CefOk(ctx, entries[j], cat);
      CefLine(ctx, entries[j], cat);
    }
  }

  /**
   * get_logs: both logs are fetched with the same window, the administrator log first; then
   * the administrator entries are emitted, then the authentication entries.
   */
  function GetLogsOutcome(ctx: Context, utcDate: int, fetch: Fetch): (o: Outcome)
    ensures var since := QueryWindow(utcDate, ctx.cfg.delta);
      o.messages != [] || o.failure.None? ==>
        && fetch(AdminLog, since).Ok? && fetch(AuthLog, since).Ok?
        && |o.messages| <= |fetch(AdminLog, since).value| + |fetch(AuthLog, since).value|
  {
    var since := QueryWindow(utcDate, ctx.cfg.delta);
    match fetch(AdminLog, since)
    case Err(err) => Outcome([], Some(err))
    case Ok(adminLog) =>
      match fetch(AuthLog, since)
      case Err(err) => Outcome([], Some(err))
      case Ok(authLog) =>
        var admin := Emit(ctx, adminLog, AdminLog);
        if admin.failure.Some? then admin
        else
          var auth := Emit(ctx, authLog, AuthLog);
          Outcome(admin.messages + auth.messages, auth.failure)
  }

  /** A failing API call sends nothing. */
  lemma FetchFails(ctx: Context, utcDate: int, fetch: Fetch)
    requires var since := QueryWindow(utcDate, ctx.cfg.delta);
      fetch(AdminLog, since).Err? || fetch(AuthLog, since).Err?
    ensures GetLogsOutcome(ctx, utcDate, fetch).messages == []
    ensures GetLogsOutcome(ctx, utcDate, fetch).failure.Some?
  {
  }

  /**
   * When both logs are fetched and every entry formats, one line is sent per administrator
   * entry, in order, followed by one per authentication entry, in order.
   */
  lemma GetLogsOrder(ctx: Context, utcDate: int, fetch: Fetch, adminLog: seq<Entry>, authLog: seq<Entry>)
    requires ctx.cfg.logMethod == "cef" || ctx.cfg.logMethod == "tsv"
    requires var since := QueryWindow(utcDate, ctx.cfg.delta);
      fetch(AdminLog, since) == Ok(adminLog) && fetch(AuthLog, since) == Ok(authLog)
    requires forall i :: 0 <= i < |adminLog| ==> LogEvent(ctx, adminLog[i], AdminLog).Ok?
    requires forall i :: 0 <= i < |authLog| ==> LogEvent(ctx, authLog[i], AuthLog).Ok?
    ensures var o := GetLogsOutcome(ctx, utcDate, fetch);
      && o.failure.None?
      && |o.messages| == |adminLog| + |authLog|
      && (forall i :: 0 <= i < |adminLog| ==> LogEvent(ctx, adminLog[i], AdminLog) == Ok(Some(o.messages[i])))
      && (forall i :: 0 <= i < |authLog| ==> LogEvent(ctx, authLog[i], AuthLog) == Ok(Some(o.messages[|adminLog| + i])))
  {
    EmitEach(ctx, adminLog, AdminLog);
    EmitEach(ctx, authLog, AuthLog);
  }

  /** With a LOG_METHOD other than "cef" or "tsv" the run sends nothing; only the API calls can fail. */
  lemma GetLogsSilent(ctx: Context, utcDate: int, fetch: Fetch)
    requires ctx.cfg.logMethod != "cef" && ctx.cfg.logMethod != "tsv"
    ensures GetLogsOutcome(ctx, utcDate, fetch).messages == []
    ensures GetLogsOutcome(ctx, utcDate, fetch).failure.Some? ==>
      var since := QueryWindow(utcDate, ctx.cfg.delta);
      fetch(AdminLog, since).Err? || fetch(AuthLog, since).Err?
  {
    var since := QueryWindow(utcDate, ctx.cfg.delta);
    if fetch(AdminLog, since).Ok? && fetch(AuthLog, since).Ok? {
      EmitSilent(ctx, fetch(AdminLog, since).value, AdminLog);
      EmitSilent(ctx, fetch(AuthLog, since).value, AuthLog);
    }
  }

  lemma AppendAssoc(a: seq<string>, b: seq<string>, c: seq<string>)
    ensures a + b + c == a + (b + c)
  {
  }

  /**
   * The syslog emitter with the `print_msg` decorator around `send_syslog`: `sent` is what went
   * to the syslog server, `debugLog` the lines of the debug file, `exceptions` what was written
   * to exceptions.log.
   */
  class SyslogSender {
    var sent: seq<string>
    var debugLog: seq<string>
    var exceptions: seq<Error>

    /** A fresh emitter; the debug file and the exception log may already hold lines. */
    constructor(debugLines: seq<string>, exceptionLines: seq<Error>)
      ensures sent == [] && debugLog == debugLines && exceptions == exceptionLines
    {
      sent := [];
      debugLog := debugLines;
      exceptions := exceptionLines;
    }

    /** send_syslog: with DEBUG set, the line is appended to the debug file, then emitted. */
    method Send(debug: bool, msg: string)
      modifies this
      ensures sent == old(sent) + [msg]
      ensures debugLog == old(debugLog) + (if debug then [msg] else [])
      ensures exceptions == old(exceptions)
    {
      if debug {
        debugLog := debugLog + [msg];
      }
      sent := sent + [msg];
    }

    /** The loop over one log in get_logs; it stops at the first entry that raises. */
    method LogEntries(ctx: Context, entries: seq<Entry>, cat: Category) returns (failure: Option<Error>)
      modifies this
      ensures failure == Emit(ctx, entries, cat).failure
      ensures sent == old(sent) + Emit(ctx, entries, cat).messages
      ensures debugLog == old(debugLog) + (if ctx.cfg.debug then Emit(ctx, entries, cat).messages else [])
      ensures exceptions == old(exceptions)
    {
      ghost var events := Events(ctx, entries, cat);
      var i := 0;
      failure := None;
      while i < |entries| && failure.None?
        invariant 0 <= i <= |entries|
        invariant failure == Deliver(events[..i]).failure
        invariant sent == old(sent) + Deliver(events[..i]).messages
        invariant debugLog == old(debugLog) + (if ctx.cfg.debug then Deliver(events[..i]).messages else [])
        invariant exceptions == old(exceptions)
      {
        var event := LogEvent(ctx, entries[i], cat);
        failure := Handle(ctx.cfg.debug, event, events, i, old(sent), old(debugLog));
        i := i + 1;
      }
      if failure.Some? {
        DeliverSticky(events, i);
      } else {
        assert events[..i] == events;
      }
    }

    /** One pass of that loop: an exception ends it, a line is sent, and an event with no line changes nothing. */
    method Handle(debug: bool, event: Event, ghost events: seq<Event>, i: int, ghost sent0: seq<string>,
                  ghost debugLog0: seq<string>) returns (failure: Option<Error>)
      requires 0 <= i < |events| && events[i] == event && Deliver(events[..i]).failure.None?
      requires sent == sent0 + Deliver(events[..i]).messages
      requires debugLog == debugLog0 + (if debug then Deliver(events[..i]).messages else [])
      modifies this
      ensures failure == Deliver(events[..i + 1]).failure
      ensures sent == sent0 + Deliver(events[..i + 1]).messages
      ensures debugLog == debugLog0 + (if debug then Deliver(events[..i + 1]).messages else [])
      ensures exceptions == old(exceptions)
    {
      assert events[..i + 1][..i] == events[..i];
      ghost var before := Deliver(events[..i]);
      failure := None;
      match event {
        case Err(err) =>
          failure := Some(err);
        case Ok(None) =>
        case Ok(Some(msg)) =>
          Send(debug, msg);
          AppendAssoc(sent0, before.messages, [msg]);
          AppendAssoc(debugLog0, before.messages, [msg]);
      }
    }

    /** get_logs: the window, the two API calls, then the administrator and the authentication entries. */
    method GetLogs(ctx: Context, utcDate: int, fetch: Fetch) returns (failure: Option<Error>)
      modifies this
      ensures failure == GetLogsOutcome(ctx, utcDate, fetch).failure
      ensures sent == old(sent) + GetLogsOutcome(ctx, utcDate, fetch).messages
      ensures debugLog == old(debugLog) + (if ctx.cfg.debug then GetLogsOutcome(ctx, utcDate, fetch).messages else [])
      ensures exceptions == old(exceptions)
    {
      var since := QueryWindow(utcDate, ctx.cfg.delta);
      var adminLog := fetch(AdminLog, since);
      if adminLog.Err? {
        return Some(adminLog.error);
      }
      var authLog := fetch(AuthLog, since);
      if authLog.Err? {
        return Some(authLog.error);
      }
      ghost var o := GetLogsOutcome(ctx, utcDate, fetch);
      ghost var admin := Emit(ctx, adminLog.value, AdminLog);
      failure := LogEntries(ctx, adminLog.value, AdminLog);
      if failure.None? {
        ghost var auth := Emit(ctx, authLog.value, AuthLog);
        assert o == Outcome(admin.messages + auth.messages, auth.failure);
        failure := LogEntries(ctx, authLog.value, AuthLog);
        AppendAssoc(old(sent), admin.messages, auth.messages);
        AppendAssoc(old(debugLog), admin.messages, auth.messages);
      } else {
        assert o == admin;
      }
    }

    /**
     * The script's main block after reading conf.ini: the syslog prefix from the local time and
     * host name, get_logs, then "Ran at <date>" in the debug file; an exception is recorded in
     * exceptions.log instead.
     */
    method Run(cfg: Config, hostname: string, hostIp: string, now: LocalTime, utcDate: int, date: string,
               localtime: Option<int> -> LocalTime, fetch: Fetch)
      modifies this
      ensures var ctx := Context(cfg, hostIp, SyslogHeader(now, hostname), localtime);
        var o := GetLogsOutcome(ctx, utcDate, fetch);
        && sent == old(sent) + o.messages
        && debugLog == old(debugLog) + (if cfg.debug then o.messages else [])
             + (if cfg.debug && o.failure.None? then ["Ran at " + date] else [])
        && exceptions == old(exceptions) + (if o.failure.Some? then [o.failure.value] else [])
    {
      var ctx := Context(cfg, hostIp, SyslogHeader(now, hostname), localtime);
      var failure := GetLogs(ctx, utcDate, fetch);
      if failure.Some? {
        exceptions := exceptions + [failure.value];
      } else if cfg.debug {
        debugLog := debugLog + ["Ran at " + date];
      }
    }
  }
}
