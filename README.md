# Duo log grabber: a Dafny model of its formatters and emission loop

`duo_log_grabber.py` runs once per invocation. It fetches the administrator log and the
authentication log from the Duo Security Admin API and turns each entry into one syslog line.
The line is either an ArcSight CEF message or a tab-separated line, as LOG_METHOD says. Every
line goes to a UDP syslog server. With DEBUG set, every line is first appended to a debug file.

This project models that core in Dafny:

- `wrappers.dfy` (`Wrappers`): `Option` and `Result`.
- `strings.dfy` (`Strings`): the Python string operations the formatters use, namely
  `sep.join`, `lstrip`, `strip` (built from a left and a right strip) and `s * n`. It also has
  `s.split(c)`, which the program does not call. The lemmas use it to state how a line splits
  back into its fields, and it proves that splitting a join of separator-free pieces gives the
  pieces back.
- `pyvalues.dfy` (`PyValues`): the values an entry holds, in Python 2 terms. A value is byte
  text, unicode text, an int, a bool or None. The module also has `str(v)` and Python 2's
  `repr(v)`, including its choice of quote, its escapes and the `u` marker. The username
  rendering is `repr(v).lstrip("u").strip("'")`.
- `timefmt.dfy` (`TimeFormat`): `strftime('%b %d %H:%M:%S')` on a local time, with a parser
  that reads it back.
- `formatters.dfy` (`Formatters`): `log_to_cef`, `log_to_tsv` and `log_event` as functions. They
  evaluate the entry's fields in the source's order and return either the line or the exception
  the source raises. A missing field gives `KeyError`. A value that cannot be multiplied,
  concatenated or joined gives `TypeError`.
- `formatspec.dfy` (`FormatSpec`): reference definitions read straight from the entry. These are
  `CefReady`/`TsvReady` (when a line is produced), `CefExtension` (the key/value pairs) and
  `TsvFields` (the columns). The module also proves how the formatters relate to them.
- `grabber.dfy` (`Grabber`): the query window chosen from DELTA, and the run of `get_logs` as a
  function `GetLogsOutcome`. It also has the class `SyslogSender`, whose `sent`, `debugLog` and
  `exceptions` fields record what went to the syslog server, the debug file and exceptions.log.
  `Send` models `send_syslog` under the `print_msg` decorator. `LogEntries`, `GetLogs` and `Run`
  are the loops of `get_logs` and of the main block, proved against `GetLogsOutcome`.

The configuration read from conf.ini is a `Config` value. A `Context` adds the host IP, the run's
syslog prefix and `time.localtime`.

The comment at lines 86 and 98 says `repr` is used to keep the backslash of a `domain\user`
name. It does keep it, by doubling it: `CORP\jdoe` comes out as `CORP\\jdoe`
(`PyValues.DomainUser`).

Other behaviour of the source that the model keeps:

- A name containing an apostrophe keeps the double quotes that `repr` put around it
  (`PyValues.ApostropheUser`).
- The auth integration label is keyed `ca3Label=`, and there is no `cs3Label=`.
- `%d` pads the day with a zero. It does not use the space of RFC 3164 section 4.1.2.

## Model

| member | source | states |
|---|---|---|
| PyValues.PyStr | duo_log_grabber.py:90 | `str(v)`: a text value is itself; any other value gives a non-empty printable word with no space; PyValues.PyStrWords gives the exact words |
| PyValues.PyStrWords | duo_log_grabber.py:90 | `str` of None is "None", of a bool "True" or "False", and of an int its decimal digits, which read back as the int (after a '-' for a negative int) |
| PyValues.RenderUser | duo_log_grabber.py:88 | the rendered username never begins or ends with a single quote |
| PyValues.Repr | duo_log_grabber.py:103 | `repr` of any value is printable ASCII only: control and non-ASCII characters come out escaped |
| PyValues.RenderUserPrintable | duo_log_grabber.py:138 | the rendered username is printable ASCII, so it never holds a tab or a newline |
| PyValues.UnicodeMarkerRemoved | duo_log_grabber.py:103 | the `u` marker of a unicode repr is removed: a unicode name renders exactly as the byte string with the same text |
| PyValues.RenderPlainUser | duo_log_grabber.py:155 | a printable name without single quotes renders as itself with each backslash doubled, and as itself when it has no backslash |
| PyValues.DomainUser | duo_log_grabber.py:86-88 | a `domain\user` name renders as `domain\\user` |
| PyValues.ApostropheUser | duo_log_grabber.py:138 | a name with an apostrophe, and no double quote or backslash, renders inside double quotes |
| PyValues.MillisDecimal | duo_log_grabber.py:89 | for a non-zero timestamp, `str(t*1000)` is `str(t)` followed by "000" |
| PyValues.DecimalRoundTrip | duo_log_grabber.py:100 | the decimal digits `str` writes for a natural number read back as that number |
| Formatters.Millis | duo_log_grabber.py:89 | the `rt=` value exists exactly when the timestamp is not None; for a non-zero integer it is its digits followed by "000" |
| Formatters.Require | duo_log_grabber.py:88-91 | reading fields in order succeeds exactly when all are present; otherwise the KeyError names the first missing one |
| Formatters.TextsOf | duo_log_grabber.py:116-118 | concatenating values succeeds exactly when all are text, and yields their texts; otherwise it raises TypeError |
| Formatters.CefKeys | duo_log_grabber.py:87-111 | the extension keys are pairwise distinct: 4 for admin entries, 11 for auth entries |
| Formatters.CefDict | duo_log_grabber.py:87-111 | the `extension` dict: when it evaluates it has one pair per CEF key and the timestamp was present and not None; it can only raise KeyError or TypeError; FormatSpec.AdminDictOk, FormatSpec.AuthDictOk and the DictCarries lemmas specify it |
| Formatters.AdminDict | duo_log_grabber.py:87-92 | the admin `extension` dict: when it evaluates it has four pairs and the timestamp was present and not None; it can only raise KeyError or TypeError |
| Formatters.AuthDict | duo_log_grabber.py:99-111 | the auth `extension` dict: when it evaluates it has eleven pairs and the timestamp was present and not None; it can only raise KeyError or TypeError |
| Formatters.LogToCef | duo_log_grabber.py:74-123 | log_to_cef: a line starts with the run's syslog prefix and a space; the only exceptions are KeyError and TypeError; FormatSpec.CefOk says when it succeeds, FormatSpec.CefLine gives the exact line, FormatSpec.CefErr gives the kind of exception, and FormatSpec.CefFirstMissing names the field of a KeyError |
| Formatters.EntryTime | duo_log_grabber.py:133-134 | the entry time exists exactly when the timestamp is not text (None meaning now); it is 15 characters that parse back as a time; otherwise it raises TypeError |
| Formatters.LogToTsv | duo_log_grabber.py:126-171 | log_to_tsv: a line starts with a parseable 15-character time and a space; the only exceptions are KeyError and TypeError; FormatSpec.TsvOk says when it succeeds, FormatSpec.TsvLine and FormatSpec.TsvColumns give the exact line, FormatSpec.TsvErr gives the kind of exception, and FormatSpec.TsvFirstMissing names the field of a KeyError |
| Formatters.LogEvent | duo_log_grabber.py:174-181 | log_event: any LOG_METHOD other than "cef" or "tsv" yields nothing and raises nothing; with "cef" or "tsv" a success always carries a line; FormatSpec.LogEventOk relates it to both formatters |
| Formatters.TsvData | duo_log_grabber.py:137-166 | the TSV data has 4 values for an admin entry and 5 for an auth entry |
| TimeFormat.SyslogTime | duo_log_grabber.py:133-134 | `%b %d %H:%M:%S` is 15 characters with separators at fixed places and no tab |
| TimeFormat.SyslogTimeRoundTrip | duo_log_grabber.py:249 | the formatted time parses back to the time it came from |
| FormatSpec.AdminDictOk | duo_log_grabber.py:87-92 | the admin extension dict evaluates exactly when username, timestamp and host are present and the timestamp is not None |
| FormatSpec.AuthDictOk | duo_log_grabber.py:99-111 | the auth extension dict evaluates exactly when its eight read fields (timestamp, ip, host, username, result, new_enrollment, factor, integration) are present and the timestamp is not None |
| FormatSpec.CefOk | duo_log_grabber.py:74-121 | log_to_cef produces a line if and only if the entry holds every field it reads, as text where text is concatenated |
| FormatSpec.CefErr | duo_log_grabber.py:74-111 | a KeyError from log_to_cef names a field it reads (eventtype, action or a dict field) that the entry lacks; with every such field present only TypeError can be raised; a missing eventtype raises KeyError("eventtype") first (line 79) |
| FormatSpec.CefFirstMissing | duo_log_grabber.py:79-111 | a KeyError from log_to_cef names the first field, in the order it reads them, that the entry lacks |
| FormatSpec.CefLine | duo_log_grabber.py:113-121 | the CEF line is the syslog prefix, a space, the header ending in a vertical bar, and the space-joined `key=value` words of the extension |
| FormatSpec.CefHeaderSplit | duo_log_grabber.py:113-114 | splitting the header at each vertical bar gives the 7 header fields followed by one empty string |
| FormatSpec.AdminExtensionValues | duo_log_grabber.py:87-92 | admin extension: duser is the rendered username, rt the milliseconds, description `str` of the field or "None" when absent, dhost the host |
| FormatSpec.AuthExtensionValues | duo_log_grabber.py:99-111 | auth extension: each key carries its field; the labels are `new_enrollment`, `factor` and `integration`; integration's label key is `ca3Label=` and there is no `cs3Label=` |
| FormatSpec.NullDescription | duo_log_grabber.py:90 | an absent or null description is sent as "None", both under `description=` in CEF and in the TSV description column (line 139) |
| FormatSpec.EnrollmentWord | duo_log_grabber.py:106 | a boolean new_enrollment is sent under `cs1=` as "True" or "False" |
| FormatSpec.TsvStamp | duo_log_grabber.py:133-134 | the TSV time stamp is 15 characters and holds no tab |
| FormatSpec.TsvDescription | duo_log_grabber.py:139 | the TSV description column is `str` of the field, or "None" when the entry has none |
| FormatSpec.TsvOk | duo_log_grabber.py:126-169 | log_to_tsv produces a line if and only if the entry has a non-text timestamp (None meaning now), a username, and its other fields as text |
| FormatSpec.TsvErr | duo_log_grabber.py:132-165 | a KeyError from log_to_tsv names a field it reads (timestamp or a `data` field) that the entry lacks; with every such field present only TypeError can be raised; a missing timestamp raises KeyError("timestamp") first (line 134) |
| FormatSpec.TsvFirstMissing | duo_log_grabber.py:133-165 | a KeyError from log_to_tsv names the first field, in the order it reads them, that the entry lacks |
| FormatSpec.TsvLine | duo_log_grabber.py:168-169 | the TSV line is the tab-join of "time IP", `duo_<entry_type>` and the fields in the `order` list |
| FormatSpec.TsvColumns | duo_log_grabber.py:160-169 | with tab-free fields and IP, splitting a TSV line on tabs gives its columns back: 7 for auth entries, 6 for admin entries |
| FormatSpec.PyStrTabFree | duo_log_grabber.py:139 | `str(v)` holds a tab only if v is text with a tab |
| FormatSpec.LogEventOk | duo_log_grabber.py:174-181 | log_event yields the CEF line or the TSV line exactly when that formatter succeeds, and yields nothing without raising for any other LOG_METHOD |
| Grabber.QueryWindow | duo_log_grabber.py:198-204 | no `mintime` is passed exactly when DELTA is 0; otherwise `mintime + DELTA` is the run's UTC time |
| Grabber.SyslogHeader | duo_log_grabber.py:248-250 | the syslog prefix is the 15-character time, which parses back to the local time, then a space and the host name |
| Grabber.Deliver | duo_log_grabber.py:206-210 | one loop over a log: it never sends more lines than there are entries; DeliverEach, DeliverStops, DeliverFrom and DeliverSticky specify it |
| Grabber.Emit | duo_log_grabber.py:206-210 | `for entry in log: log_event(entry, entry_type)` sends at most one line per entry; EmitEach and EmitSilent specify it |
| Grabber.DeliverNothing | duo_log_grabber.py:178-181 | entries that log_event ignores send nothing and raise nothing |
| Grabber.DeliverEach | duo_log_grabber.py:206-210 | when every entry yields a line, exactly those lines are sent, one per entry, in order |
| Grabber.DeliverStops | duo_log_grabber.py:206-210 | a loop fails if and only if some entry raises; it stops at the first one, with its exception, keeping the lines sent before it |
| Grabber.DeliverFrom | duo_log_grabber.py:206-210 | every line sent is the line of some entry |
| Grabber.DeliverSticky | duo_log_grabber.py:206-210 | after the first exception, the remaining entries change nothing |
| Grabber.EmitSilent | duo_log_grabber.py:174-181 | with a LOG_METHOD other than "cef" or "tsv", a log sends nothing |
| Grabber.EmitEach | duo_log_grabber.py:206-210 | with "cef" or "tsv" and every entry formatting, a log sends one line per entry in order |
| Grabber.CefPrefixed | duo_log_grabber.py:120-121 | in "cef" mode every line sent starts with the run's syslog prefix and a space |
| Grabber.GetLogsOutcome | duo_log_grabber.py:184-210 | get_logs sends a line or completes only when both API calls returned their logs, and then sends at most one line per entry; FetchFails, GetLogsOrder and GetLogsSilent specify it |
| Grabber.FetchFails | duo_log_grabber.py:199-204 | a failing API call aborts the run before any line is sent |
| Grabber.GetLogsOrder | duo_log_grabber.py:184-210 | when both fetches succeed and every entry formats, the admin lines are sent in order, then the auth lines in order |
| Grabber.GetLogsSilent | duo_log_grabber.py:178-210 | with another LOG_METHOD nothing is sent, and only an API call can fail |
| Grabber.SyslogSender.constructor | duo_log_grabber.py:252 | a new emitter has sent nothing; the debug file and exceptions.log keep their earlier lines |
| Grabber.SyslogSender.Send | duo_log_grabber.py:51-71 | the line is sent; with DEBUG set it is also appended to the debug file, and with DEBUG off the file is unchanged |
| Grabber.SyslogSender.LogEntries | duo_log_grabber.py:206-210 | the loop sends exactly the lines of `Emit` and raises its exception; the debug file mirrors the sent lines when DEBUG is set |
| Grabber.SyslogSender.Handle | duo_log_grabber.py:206-207 | one pass of that loop extends the sent lines, the debug file and the failure exactly as `Deliver` does for one more event |
| Grabber.SyslogSender.GetLogs | duo_log_grabber.py:184-210 | get_logs sends exactly the lines of `GetLogsOutcome`, admin lines before auth lines; the debug file mirrors them when DEBUG is set |
| Grabber.SyslogSender.Run | duo_log_grabber.py:244-264 | a run sends the lines of get_logs; with DEBUG set and no exception, "Ran at <date>" follows them in the debug file; an exception goes to exceptions.log |

## Left out

- Reading conf.ini (lines 214-242) is left out. The settings arrive as a `Config` value, and a missing or malformed setting is not modelled.
- `socket.gethostname`/`gethostbyname`, the clocks and the time zone are parameters. `time.localtime` is an arbitrary function from an optional timestamp to a valid local time.
- Context.localtime is one function for the whole run. Every entry with a None timestamp therefore gets the same "now", while the source reads the clock again for each entry (line 134).
- The Duo Admin API client (`duo_client.Admin`, paging and authentication) is a function parameter. It returns the entries or an `Error`, standing for whatever exception the client raises; the model does not tell the client's exceptions apart from those of the formatters.
- `set_proxy` is not modelled. Neither is the source's rule that the proxy applies only when both server and port are truthy (line 195). The `Config` fields `integrationKey`, `secretKey`, `apiHost`, `proxy`, `syslogServer`, `syslogPort` and `debugFile` are carried but no member reads them.
- UDP transport: sending always succeeds, so transport failures and partial datagrams are not modelled.
- Writing the debug file and exceptions.log is modelled as appending lines to a sequence. File I/O errors are not modelled.
- exceptions.log records the `Error` value. The `datetime.utcnow()` stamp and Python's exception text are not modelled.
- FormatSpec.CefLine, Formatters.AdminDict, Formatters.AuthDict and Formatters.LogToCef: the extension is built and stated in the order of the dict literal. Python 2 iterates a dict in hash order, which the model does not compute. The key set and each key's value are exact.
- FormatSpec.CefExtension: uses the same literal order, for the same reason.
- An `entry_type` other than the two log names cannot reach the formatters in the source, so `Category` has just the two.
- Python 2 `long` values and their `L` repr suffix are not modelled. Neither are float timestamps or the range errors of `localtime`.
- Unicode encode/decode errors are not modelled.
- `repr` of characters above U+FFFF on a narrow build is not modelled. The model writes them as `\U` escapes, as a wide build does.
- A byte string (`Text(s, false)`) is not limited to characters below 256. The model does not rule out byte strings that Python could not hold.
