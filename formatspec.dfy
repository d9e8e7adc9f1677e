/**
 * What the formatters promise, stated directly from the entry: when a line is produced, its
 * exact layout, the CEF header fields, the extension keys and values, and the TSV columns.
 */
module FormatSpec {
  import opened Wrappers
  import opened Strings
  import opened PyValues
  import opened TimeFormat
  import opened Formatters

  predicate IsText(e: Entry, key: string) {
    key in e && e[key].Text?
  }

  /** What an entry must hold for log_to_cef to produce a line rather than raise. */
  predicate CefReady(e: Entry, cat: Category) {
    && IsText(e, "eventtype") && "username" in e && "timestamp" in e && !e["timestamp"].NoneValue?
    && IsText(e, "host")
    && (cat.AdminLog? ==> IsText(e, "action"))
    && (cat.AuthLog? ==>
          IsText(e, "ip") && IsText(e, "result") && "new_enrollment" in e && IsText(e, "factor") && IsText(e, "integration"))
  }

  /** The CEF name field: the action of an admin entry, the event type again for an auth entry. */
  function CefName(e: Entry, cat: Category): string
    requires CefReady(e, cat)
  {
    if cat.AdminLog? then e["action"].s else e["eventtype"].s
  }

  /** The CEF extension values, read straight from the entry, in the order of CefKeys. */
  function CefValues(e: Entry, cat: Category): (vs: seq<string>)
    requires CefReady(e, cat)
    ensures |vs| == |CefKeys(cat)|
  {
    var rt := Millis(e["timestamp"]).value;
    var duser := RenderUser(e["username"]);
    if cat.AdminLog? then
      [duser, rt, PyStr(GetOrNone(e, "description")), e["host"].s]
    else
      [rt, e["ip"].s, e["host"].s, duser, e["result"].s, "new_enrollment", PyStr(e["new_enrollment"]),
       "factor", e["factor"].s, "integration", e["integration"].s]
  }

  /** Pairs each key with the value at the same position. */
  function Zip(keys: seq<string>, values: seq<string>): (r: seq<(string, string)>)
    requires |keys| == |values|
    ensures |r| == |keys| && forall i :: 0 <= i < |r| ==> r[i] == (keys[i], values[i])
  {
    seq(|keys|, i requires 0 <= i < |keys| => (keys[i], values[i]))
  }

  /** The CEF extension of an entry: its keys are exactly CefKeys, each with its value. */
  function CefExtension(e: Entry, cat: Category): seq<(string, string)>
    requires CefReady(e, cat)
  {
    Zip(CefKeys(cat), CefValues(e, cat))
  }

  /** The `key=value` words of an extension. */
  function Words(fields: seq<(string, string)>): seq<string>
  {
    seq(|fields|, i requires 0 <= i < |fields| => fields[i].0 + fields[i].1)
  }

  /** The value stored under `key`, if any. */
  function Lookup(fields: seq<(string, string)>, key: string): Option<string>
  {
    if |fields| == 0 then None
    else if fields[0].0 == key then Some(fields[0].1)
    else Lookup(fields[1..], key)
  }

  /** The admin `extension` dict evaluates exactly when its fields are there and the timestamp is not None. */
  lemma AdminDictOk(e: Entry)
    ensures CefDict(e, AdminLog).Ok? <==>
      "username" in e && "timestamp" in e && !e["timestamp"].NoneValue? && "host" in e
  {
    if CefDict(e, AdminLog).Ok? {
      assert Require(e, ["username", "timestamp"]).Ok? && Require(e, ["host"]).Ok?;
    }
  }

  lemma AuthReadsPresent(e: Entry)
    requires Require(e, CefAuthReads).Ok?
    ensures "ip" in e && "host" in e && "username" in e && "result" in e
    ensures "new_enrollment" in e && "factor" in e && "integration" in e
  {
    assert "ip" in CefAuthReads && "host" in CefAuthReads && "username" in CefAuthReads && "result" in CefAuthReads;
    assert "new_enrollment" in CefAuthReads && "factor" in CefAuthReads && "integration" in CefAuthReads;
  }

  /** The auth `extension` dict evaluates exactly when its fields are there and the timestamp is not None. */
  lemma AuthDictOk(e: Entry)
    ensures CefDict(e, AuthLog).Ok? <==>
      "timestamp" in e && !e["timestamp"].NoneValue? && "ip" in e && "host" in e && "username" in e
      && "result" in e && "new_enrollment" in e && "factor" in e && "integration" in e
  {
    if CefDict(e, AuthLog).Ok? {
      assert Require(e, ["timestamp"]).Ok? && Require(e, CefAuthReads).Ok?;
      AuthReadsPresent(e);
    }
  }

  /** Extension pairs whose keys are those of `ext` and whose values are `ext`'s values as text. */
  predicate Carries(d: seq<(string, Value)>, ext: seq<(string, string)>) {
    |d| == |ext| && forall i :: 0 <= i < |d| ==> d[i].0 == ext[i].0 && d[i].1.Text? && d[i].1.s == ext[i].1
  }

  lemma AdminDictCarries(e: Entry)
    requires CefReady(e, AdminLog)
    ensures CefDict(e, AdminLog).Ok? && Carries(CefDict(e, AdminLog).value, CefExtension(e, AdminLog))
  {
    AdminDictOk(e);
  }

  lemma AuthDictCarries(e: Entry)
    requires CefReady(e, AuthLog)
    ensures CefDict(e, AuthLog).Ok? && Carries(CefDict(e, AuthLog).value, CefExtension(e, AuthLog))
  {
    AuthDictOk(e);
    AuthDictPairs(e);
    var d := CefDict(e, AuthLog).value;
    var ext := CefExtension(e, AuthLog);
    assert forall i :: 0 <= i < 11 ==> ext[i] == (CefKeys(AuthLog)[i], CefValues(e, AuthLog)[i]);
  }

  /**
   * The pairs the auth dict holds for a ready entry, written out. This repeats the literal of
   * Formatters.AuthDict on purpose: proving facts about the written-out list separately keeps
   * each proof about the dict within the verifier's resource limit.
   */
  function AuthPairs(e: Entry): seq<(string, Value)>
    requires CefReady(e, AuthLog)
  {
    [("rt=", Text(Millis(e["timestamp"]).value, false)), ("src=", e["ip"]), ("dhost=", e["host"]),
     ("duser=", Text(RenderUser(e["username"]), false)), ("outcome=", e["result"]),
     ("cs1Label=", Text("new_enrollment", false)), ("cs1=", Text(PyStr(e["new_enrollment"]), false)),
     ("cs2Label=", Text("factor", false)), ("cs2=", e["factor"]),
     ("ca3Label=", Text("integration", false)), ("cs3=", e["integration"])]
  }

  lemma AuthDictIs(e: Entry)
    requires CefReady(e, AuthLog)
    ensures AuthDict(e) == Ok(AuthPairs(e))
  {
    assert Require(e, ["timestamp"]).Ok? && Require(e, CefAuthReads).Ok?;
  }

  /** Each written-out auth pair holds the key of CefKeys and the value of CefValues at its position. */
  lemma AuthDictPairs(e: Entry)
    requires CefReady(e, AuthLog)
    ensures AuthDict(e).Ok? && |AuthDict(e).value| == 11
    ensures forall i :: 0 <= i < 11 ==> AuthDict(e).value[i].0 == CefKeys(AuthLog)[i]
    ensures forall i :: 0 <= i < 11 ==>
      AuthDict(e).value[i].1.Text? && AuthDict(e).value[i].1.s == CefValues(e, AuthLog)[i]
  {
    AuthDictIs(e);
    AuthPairsKeys(e);
    AuthPairsValues(e);
  }

  lemma AuthPairsKeys(e: Entry)
    requires CefReady(e, AuthLog)
    ensures |AuthPairs(e)| == 11 && forall i :: 0 <= i < 11 ==> AuthPairs(e)[i].0 == CefKeys(AuthLog)[i]
  {
  }

  lemma AuthPairsValues(e: Entry)
    requires CefReady(e, AuthLog)
    ensures |AuthPairs(e)| == 11
    ensures forall i :: 0 <= i < 11 ==> AuthPairs(e)[i].1.Text? && AuthPairs(e)[i].1.s == CefValues(e, AuthLog)[i]
  {
    var rt := Millis(e["timestamp"]).value;
    var duser := RenderUser(e["username"]);
    var cs1 := PyStr(e["new_enrollment"]);
    // AuthPairs and CefValues spelled out once more over the named locals, so that the
    // pointwise comparison below stays within the resource limit.
    var d := [("rt=", Text(rt, false)), ("src=", e["ip"]), ("dhost=", e["host"]),
              ("duser=", Text(duser, false)), ("outcome=", e["result"]),
              ("cs1Label=", Text("new_enrollment", false)), ("cs1=", Text(cs1, false)),
              ("cs2Label=", Text("factor", false)), ("cs2=", e["factor"]),
              ("ca3Label=", Text("integration", false)), ("cs3=", e["integration"])];
    var vs := [rt, e["ip"].s, e["host"].s, duser, e["result"].s, "new_enrollment", cs1,
               "factor", e["factor"].s, "integration", e["integration"].s];
    assert AuthPairs(e) == d;
    assert CefValues(e, AuthLog) == vs;
    forall i | 0 <= i < 11 ensures d[i].1.Text? && d[i].1.s == vs[i] {
    }
  }

  /** Rendering `key + value` over pairs that carry an extension gives that extension's words. */
  lemma CarriedWords(d: seq<(string, Value)>, ext: seq<(string, string)>)
    requires Carries(d, ext)
    ensures TextsOf(Values(d)).Ok?
    ensures Concat(Keys(d), TextsOf(Values(d)).value) == Words(ext)
  {
  }

  /** When the dict evaluates but a concatenated field is not text, the loop raises. */
  lemma DictTextNeeded(e: Entry, cat: Category)
    requires CefDict(e, cat).Ok? && TextsOf(Values(CefDict(e, cat).value)).Ok?
    ensures IsText(e, "host")
    ensures cat.AuthLog? ==> IsText(e, "ip") && IsText(e, "result") && IsText(e, "factor") && IsText(e, "integration")
  {
    if cat.AdminLog? {
      AdminTextNeeded(e);
    } else {
      AuthTextNeeded(e);
    }
  }

  lemma AdminTextNeeded(e: Entry)
    requires AdminDict(e).Ok? && TextsOf(Values(AdminDict(e).value)).Ok?
    ensures IsText(e, "host")
  {
    AdminDictOk(e);
    assert Values(AdminDict(e).value)[3] == e["host"];
  }

  lemma AuthTextNeeded(e: Entry)
    requires AuthDict(e).Ok? && TextsOf(Values(AuthDict(e).value)).Ok?
    ensures IsText(e, "ip") && IsText(e, "host") && IsText(e, "result") && IsText(e, "factor") && IsText(e, "integration")
  {
    assert Require(e, ["timestamp"]).Ok? && Require(e, CefAuthReads).Ok?;
    AuthReadsPresent(e);
    var vs := Values(AuthDict(e).value);
    assert vs[1] == e["ip"] && vs[2] == e["host"] && vs[4] == e["result"];
    assert vs[8] == e["factor"] && vs[10] == e["integration"];
  }

  /** log_to_cef produces a line exactly when the entry holds what it reads. */
  lemma CefOk(ctx: Context, e: Entry, cat: Category)
    ensures LogToCef(ctx, e, cat).Ok? <==> CefReady(e, cat)
  {
    if cat.AdminLog? { AdminDictOk(e); } else { AuthDictOk(e); }
    if CefReady(e, cat) {
      if cat.AdminLog? { AdminDictCarries(e); } else { AuthDictCarries(e); }
      CarriedWords(CefDict(e, cat).value, CefExtension(e, cat));
    } else if CefDict(e, cat).Ok? && TextsOf(Values(CefDict(e, cat).value)).Ok? {
      DictTextNeeded(e, cat);
    }
  }

  /** The fields log_to_cef reads with `entry[k]`, in the order it reads them. */
  function CefReads(cat: Category): seq<string>
  {
    if cat.AdminLog? then ["eventtype", "action", "username", "timestamp", "host"]
    else ["eventtype"] + ["timestamp"] + CefAuthReads
  }

  /**
   * Which exception log_to_cef raises: a KeyError names a field it reads that the entry lacks,
   * an entry holding every such field can only raise TypeError, and a missing event type is
   * the first thing reported.
   */
  lemma CefErr(ctx: Context, e: Entry, cat: Category)
    ensures var r := LogToCef(ctx, e, cat);
      r.Err? && r.error.KeyError? ==> r.error.key in CefReads(cat) && r.error.key !in e
    ensures var r := LogToCef(ctx, e, cat);
      (forall k :: k in CefReads(cat) ==> k in e) && r.Err? ==> r.error == TypeError
    ensures "eventtype" !in e ==> LogToCef(ctx, e, cat) == Err(KeyError("eventtype"))
  {
    if cat.AdminLog? { AdminDictOk(e); } else { AuthDictOk(e); }
  }

  /** The KeyError log_to_cef raises names the first field it reads that the entry lacks. */
  lemma CefFirstMissing(ctx: Context, e: Entry, cat: Category)
    ensures var r := LogToCef(ctx, e, cat);
      r.Err? && r.error.KeyError? ==> FirstMissing(e, CefReads(cat), r.error.key)
  {
    var r := LogToCef(ctx, e, cat);
    if r.Err? && r.error.KeyError? {
      if "eventtype" !in e {
        assert CefReads(cat)[0] == r.error.key;
      } else if cat.AdminLog? {
        AdminFirstMissing(ctx, e);
      } else {
        AuthFirstMissing(ctx, e);
      }
    }
  }

  /** `key` is the first of `order` missing from the entry. */
  predicate FirstMissing(e: Entry, order: seq<string>, key: string) {
    exists i :: 0 <= i < |order| && order[i] == key && order[i] !in e && forall j :: 0 <= j < i ==> order[j] in e
  }

  lemma AdminFirstMissing(ctx: Context, e: Entry)
    requires "eventtype" in e
    ensures var r := LogToCef(ctx, e, AdminLog);
      r.Err? && r.error.KeyError? ==> FirstMissing(e, CefReads(AdminLog), r.error.key)
  {
    var r := LogToCef(ctx, e, AdminLog);
    var order := CefReads(AdminLog);
    if r.Err? && r.error.KeyError? {
      if "action" !in e {
        assert order[1] == r.error.key;
      } else if "username" !in e {
        assert order[2] == r.error.key;
      } else if "timestamp" !in e {
        assert order[3] == r.error.key;
      } else {
        assert order[4] == r.error.key;
      }
    }
  }

  lemma AuthFirstMissing(ctx: Context, e: Entry)
    requires "eventtype" in e
    ensures var r := LogToCef(ctx, e, AuthLog);
      r.Err? && r.error.KeyError? ==> FirstMissing(e, CefReads(AuthLog), r.error.key)
  {
    var r := LogToCef(ctx, e, AuthLog);
    var order := CefReads(AuthLog);
    if r.Err? && r.error.KeyError? {
      if "timestamp" !in e {
        assert order[1] == r.error.key;
      } else {
        assert r == Err(Require(e, CefAuthReads).error);
        var i :| 0 <= i < |CefAuthReads| && r.error == KeyError(CefAuthReads[i]) && CefAuthReads[i] !in e
          && forall j :: 0 <= j < i ==> CefAuthReads[j] in e;
        assert order[i + 2] == CefAuthReads[i];
        assert forall j :: 2 <= j < i + 2 ==> order[j] == CefAuthReads[j - 2];
      }
    }
  }

  /**
   * The line log_to_cef sends: the run's syslog prefix, a space, the '|'-terminated header
   * and the space-joined `key=value` extension.
   */
  lemma CefLine(ctx: Context, e: Entry, cat: Category)
    requires CefReady(e, cat)
    ensures LogToCef(ctx, e, cat) ==
      Ok(ctx.syslogHeader + " " + (CefHeader(ctx.cfg, e["eventtype"].s, CefName(e, cat)) + Join(" ", Words(CefExtension(e, cat)))))
  {
    if cat.AdminLog? { AdminDictCarries(e); } else { AuthDictCarries(e); }
    var d := CefDict(e, cat).value;
    var ext := CefExtension(e, cat);
    CarriedWords(d, ext);
    var action := if cat.AdminLog? then e["action"] else e["eventtype"];
    assert Get(e, "eventtype") == Ok(e["eventtype"]);
    assert (if cat.AdminLog? then Get(e, "action") else Ok(e["eventtype"])) == Ok(action);
    assert AsText(e["eventtype"]) == Ok(e["eventtype"].s);
    assert AsText(action) == Ok(CefName(e, cat));
    var values := TextsOf(Values(d)).value;
    assert TextsOf(Values(d)) == Ok(values);
    var header := CefHeader(ctx.cfg, e["eventtype"].s, CefName(e, cat));
    var extension := Join(" ", Concat(Keys(d), values));
    assert extension == Join(" ", Words(ext));
    assert LogToCef(ctx, e, cat) == Ok(Join(" ", [ctx.syslogHeader, header + extension]));
    assert Join(" ", [ctx.syslogHeader, header + extension]) == ctx.syslogHeader + " " + (header + extension);
  }

  /** With no '|' inside a field, splitting the header on '|' gives the seven fields and an empty tail. */
  lemma CefHeaderSplit(cfg: Config, signature: string, name: string)
    requires forall i :: 0 <= i < 7 ==> '|' !in HeaderFields(cfg, signature, name)[i]
    ensures Split(CefHeader(cfg, signature, name), '|') == HeaderFields(cfg, signature, name) + [""]
    ensures |Split(CefHeader(cfg, signature, name), '|')| == 8
  {
    var fields := HeaderFields(cfg, signature, name);
    JoinTrailing("|", fields);
    SplitJoin(fields + [""], '|');
  }

  /** In an extension whose keys are distinct, the value under each key is the one stored with it. */
  lemma {:induction false} LookupAt(fields: seq<(string, string)>, i: int)
    requires 0 <= i < |fields|
    requires forall j, k :: 0 <= j < k < |fields| ==> fields[j].0 != fields[k].0
    ensures Lookup(fields, fields[i].0) == Some(fields[i].1)
  {
    if i > 0 {
      LookupAt(fields[1..], i - 1);
    }
  }

  lemma {:induction false} LookupAbsent(fields: seq<(string, string)>, key: string)
    requires forall j :: 0 <= j < |fields| ==> fields[j].0 != key
    ensures Lookup(fields, key) == None
  {
    if |fields| > 0 {
      LookupAbsent(fields[1..], key);
    }
  }

  /** Each admin extension key carries the value the source puts under it. */
  lemma AdminExtensionValues(e: Entry)
    requires CefReady(e, AdminLog)
    ensures var ext := CefExtension(e, AdminLog);
      && Lookup(ext, "duser=") == Some(RenderUser(e["username"]))
      && Lookup(ext, "rt=") == Millis(e["timestamp"]).ToOption()
      && Lookup(ext, "description=") == Some(if "description" in e then PyStr(e["description"]) else "None")
      && Lookup(ext, "dhost=") == Some(e["host"].s)
  {
    var ext := CefExtension(e, AdminLog);
    LookupAt(ext, 0);
    LookupAt(ext, 1);
    LookupAt(ext, 2);
    LookupAt(ext, 3);
  }

  /**
   * Each auth extension key carries the value the source puts under it; the three labels are
   * constants, and the integration label is keyed `ca3Label=`, so there is no `cs3Label=`.
   */
  lemma AuthExtensionValues(e: Entry)
    requires CefReady(e, AuthLog)
    ensures var ext := CefExtension(e, AuthLog);
      && Lookup(ext, "rt=") == Millis(e["timestamp"]).ToOption()
      && Lookup(ext, "src=") == Some(e["ip"].s)
      && Lookup(ext, "dhost=") == Some(e["host"].s)
      && Lookup(ext, "duser=") == Some(RenderUser(e["username"]))
      && Lookup(ext, "outcome=") == Some(e["result"].s)
      && Lookup(ext, "cs1Label=") == Some("new_enrollment")
      && Lookup(ext, "cs1=") == Some(PyStr(e["new_enrollment"]))
      && Lookup(ext, "cs2Label=") == Some("factor")
      && Lookup(ext, "cs2=") == Some(e["factor"].s)
      && Lookup(ext, "ca3Label=") == Some("integration")
      && Lookup(ext, "cs3=") == Some(e["integration"].s)
      && Lookup(ext, "cs3Label=") == None
  {
    var vs := CefValues(e, AuthLog);
    AuthLookups(CefExtension(e, AuthLog), vs);
  }

  /** A description that is absent or null is sent as "None", in the CEF extension and in the TSV column. */
  lemma NullDescription(e: Entry)
    requires "description" in e ==> e["description"].NoneValue?
    ensures CefReady(e, AdminLog) ==> Lookup(CefExtension(e, AdminLog), "description=") == Some("None")
    ensures TsvReady(e, AdminLog) ==> TsvFields(e, AdminLog)[2] == "None"
  {
    if CefReady(e, AdminLog) {
      AdminExtensionValues(e);
    }
  }

  /** A boolean new_enrollment is sent under `cs1=` as "True" or "False". */
  lemma EnrollmentWord(e: Entry)
    requires CefReady(e, AuthLog) && e["new_enrollment"].Bool?
    ensures Lookup(CefExtension(e, AuthLog), "cs1=") == Some(if e["new_enrollment"].b then "True" else "False")
  {
    AuthExtensionValues(e);
    PyStrWords(e["new_enrollment"]);
  }

  /** Lookups in an auth extension, whatever its values. */
  lemma AuthLookups(ext: seq<(string, string)>, vs: seq<string>)
    requires |vs| == 11 && ext == Zip(CefKeys(AuthLog), vs)
    ensures && Lookup(ext, "rt=") == Some(vs[0]) && Lookup(ext, "src=") == Some(vs[1])
      && Lookup(ext, "dhost=") == Some(vs[2]) && Lookup(ext, "duser=") == Some(vs[3])
      && Lookup(ext, "outcome=") == Some(vs[4]) && Lookup(ext, "cs1Label=") == Some(vs[5])
      && Lookup(ext, "cs1=") == Some(vs[6]) && Lookup(ext, "cs2Label=") == Some(vs[7])
      && Lookup(ext, "cs2=") == Some(vs[8]) && Lookup(ext, "ca3Label=") == Some(vs[9])
      && Lookup(ext, "cs3=") == Some(vs[10]) && Lookup(ext, "cs3Label=") == None
  {
    var ks := CefKeys(AuthLog);
    ZipLookups(ks, vs);
    assert ks == ["rt=", "src=", "dhost=", "duser=", "outcome=", "cs1Label=", "cs1=", "cs2Label=", "cs2=", "ca3Label=", "cs3="];
    assert Lookup(ext, ks[0]) == Some(vs[0]) && Lookup(ext, ks[1]) == Some(vs[1]) && Lookup(ext, ks[2]) == Some(vs[2]);
    assert Lookup(ext, ks[3]) == Some(vs[3]) && Lookup(ext, ks[4]) == Some(vs[4]) && Lookup(ext, ks[5]) == Some(vs[5]);
    assert Lookup(ext, ks[6]) == Some(vs[6]) && Lookup(ext, ks[7]) == Some(vs[7]) && Lookup(ext, ks[8]) == Some(vs[8]);
    assert Lookup(ext, ks[9]) == Some(vs[9]) && Lookup(ext, ks[10]) == Some(vs[10]);
    LookupAbsent(ext, "cs3Label=");
  }

  /** In a zip of distinct keys, each key finds the value stored with it. */
  lemma ZipLookups(keys: seq<string>, values: seq<string>)
    requires |keys| == |values| && forall j, k :: 0 <= j < k < |keys| ==> keys[j] != keys[k]
    ensures forall i :: 0 <= i < |keys| ==> Lookup(Zip(keys, values), keys[i]) == Some(values[i])
  {
    var ext := Zip(keys, values);
    forall i | 0 <= i < |keys| ensures Lookup(ext, keys[i]) == Some(values[i]) {
      LookupAt(ext, i);
    }
  }

  // ---------------------------------------------------------------- TSV

  /** What an entry must hold for log_to_tsv to produce a line rather than raise. */
  predicate TsvReady(e: Entry, cat: Category) {
    && "timestamp" in e && !e["timestamp"].Text? && "username" in e
    && (cat.AdminLog? ==> IsText(e, "host") && IsText(e, "action"))
    && (cat.AuthLog? ==> IsText(e, "ip") && IsText(e, "factor") && IsText(e, "result") && IsText(e, "integration"))
  }

  /** The entry's local time: its timestamp in seconds, or the current time when the timestamp is None. */
  function TsvStamp(ctx: Context, e: Entry): (r: string)
    requires "timestamp" in e && !e["timestamp"].Text?
    ensures |r| == 15 && '\t' !in r
  {
    SyslogTime(ctx.localtime(LocaltimeArg(e["timestamp"]).value))
  }

  /** The TSV columns after the tag, read straight from the entry in the order of the `order` list. */
  function TsvFields(e: Entry, cat: Category): (fs: seq<string>)
    requires TsvReady(e, cat)
    ensures |fs| == if cat.AdminLog? then 4 else 5
  {
    var user := RenderUser(e["username"]);
    if cat.AdminLog? then [user, e["host"].s, PyStr(GetOrNone(e, "description")), e["action"].s]
    else [e["ip"].s, e["factor"].s, user, e["result"].s, e["integration"].s]
  }

  /** The TSV description column is `str` of the field, or "None" when the entry has none. */
  lemma TsvDescription(e: Entry)
    requires TsvReady(e, AdminLog)
    ensures TsvFields(e, AdminLog)[2] == if "description" in e then PyStr(e["description"]) else "None"
  {
  }

  lemma TsvDataOk(e: Entry, cat: Category)
    ensures TsvData(e, cat).Ok? <==>
      "username" in e && (if cat.AdminLog? then "host" in e && "action" in e
                          else "ip" in e && "factor" in e && "result" in e && "integration" in e)
  {
    if cat.AdminLog? {
      TsvReadsPresent(e, TsvAdminReads);
      assert TsvData(e, cat).Ok? <==> Require(e, TsvAdminReads).Ok?;
    } else {
      TsvReadsPresent(e, TsvAuthReads);
      assert TsvData(e, cat).Ok? <==> Require(e, TsvAuthReads).Ok?;
    }
  }

  /** The fields log_to_tsv reads are all there exactly when each one named is. */
  lemma TsvReadsPresent(e: Entry, keys: seq<string>)
    requires keys == TsvAdminReads || keys == TsvAuthReads
    ensures keys == TsvAdminReads ==>
      (Require(e, keys).Ok? <==> "username" in e && "host" in e && "action" in e)
    ensures keys == TsvAuthReads ==>
      (Require(e, keys).Ok? <==> "ip" in e && "factor" in e && "username" in e && "result" in e && "integration" in e)
  {
    assert forall k :: k in keys <==> k == keys[0] || k == keys[1] || k == keys[2] || (|keys| == 5 && (k == keys[3] || k == keys[4]));
  }

  /** When every field is there, the `data` values are text exactly where TsvReady asks for it. */
  lemma TsvTexts(e: Entry, cat: Category)
    requires TsvData(e, cat).Ok?
    ensures TextsOf(TsvData(e, cat).value).Ok? <==>
      if cat.AdminLog? then IsText(e, "host") && IsText(e, "action")
      else IsText(e, "ip") && IsText(e, "factor") && IsText(e, "result") && IsText(e, "integration")
  {
    TsvDataOk(e, cat);
    var vs := TsvData(e, cat).value;
    if cat.AdminLog? {
      assert vs[1] == e["host"] && vs[3] == e["action"];
    } else {
      assert vs[0] == e["ip"] && vs[1] == e["factor"] && vs[3] == e["result"] && vs[4] == e["integration"];
    }
  }

  /** log_to_tsv produces a line exactly when the entry holds what it reads. */
  lemma TsvOk(ctx: Context, e: Entry, cat: Category)
    ensures LogToTsv(ctx, e, cat).Ok? <==> TsvReady(e, cat)
  {
    TsvDataOk(e, cat);
    if TsvData(e, cat).Ok? {
      TsvTexts(e, cat);
    }
  }

  /** The fields log_to_tsv reads with `entry[k]`, in the order it reads them. */
  function TsvReads(cat: Category): seq<string>
  {
    ["timestamp"] + (if cat.AdminLog? then TsvAdminReads else TsvAuthReads)
  }

  /**
   * Which exception log_to_tsv raises: a KeyError names a field it reads that the entry lacks,
   * an entry holding every such field can only raise TypeError, and a missing timestamp is the
   * first thing reported.
   */
  lemma TsvErr(ctx: Context, e: Entry, cat: Category)
    ensures var r := LogToTsv(ctx, e, cat);
      r.Err? && r.error.KeyError? ==> r.error.key in TsvReads(cat) && r.error.key !in e
    ensures var r := LogToTsv(ctx, e, cat);
      (forall k :: k in TsvReads(cat) ==> k in e) && r.Err? ==> r.error == TypeError
    ensures "timestamp" !in e ==> LogToTsv(ctx, e, cat) == Err(KeyError("timestamp"))
  {
    TsvDataOk(e, cat);
  }

  /** The KeyError log_to_tsv raises names the first field it reads that the entry lacks. */
  lemma TsvFirstMissing(ctx: Context, e: Entry, cat: Category)
    ensures var r := LogToTsv(ctx, e, cat);
      r.Err? && r.error.KeyError? ==> FirstMissing(e, TsvReads(cat), r.error.key)
  {
    var r := LogToTsv(ctx, e, cat);
    var order := TsvReads(cat);
    if r.Err? && r.error.KeyError? {
      if "timestamp" !in e {
        assert order[0] == r.error.key;
      } else {
        var keys := if cat.AdminLog? then TsvAdminReads else TsvAuthReads;
        assert r == Err(Require(e, keys).error);
        var i :| 0 <= i < |keys| && r.error == KeyError(keys[i]) && keys[i] !in e
          && forall j :: 0 <= j < i ==> keys[j] in e;
        assert order[i + 1] == keys[i];
        assert forall j :: 1 <= j < i + 1 ==> order[j] == keys[j - 1];
      }
    }
  }

  /**
   * The line log_to_tsv sends: the entry's time and this host's IP, the tag `duo_<entry_type>`,
   * then the fields, all separated by tabs.
   */
  lemma TsvLine(ctx: Context, e: Entry, cat: Category)
    requires TsvReady(e, cat)
    ensures LogToTsv(ctx, e, cat) ==
      Ok(Join("\t", [TsvStamp(ctx, e) + " " + ctx.hostIp, "duo_" + cat.Name()] + TsvFields(e, cat)))
  {
    TsvTextsValue(e, cat);
    TsvStampTime(ctx, e);
    var fields := TsvFields(e, cat);
    assert LogToTsv(ctx, e, cat) == Ok(TsvText(TsvStamp(ctx, e), ctx.hostIp, cat.Name(), fields));
    TsvTextJoin(TsvStamp(ctx, e), ctx.hostIp, cat.Name(), fields);
  }

  /** The TSV line is the tab-join of the stamped host, the tag and the fields. */
  lemma TsvTextJoin(stamp: string, hostIp: string, entryType: string, fields: seq<string>)
    requires |stamp| == 15 && |fields| >= 1
    ensures TsvText(stamp, hostIp, entryType, fields) == Join("\t", [stamp + " " + hostIp, "duo_" + entryType] + fields)
  {
    JoinTwo("\t", stamp + " " + hostIp, "duo_" + entryType, fields);
  }

  /** The stamp log_to_tsv computes is TsvStamp. */
  lemma TsvStampTime(ctx: Context, e: Entry)
    requires "timestamp" in e && !e["timestamp"].Text?
    ensures EntryTime(ctx, e["timestamp"]) == Ok(TsvStamp(ctx, e))
  {
  }

  /** On a ready entry the `data` values, taken as text, are the reference fields. */
  lemma TsvTextsValue(e: Entry, cat: Category)
    requires TsvReady(e, cat)
    ensures TsvData(e, cat).Ok? && TextsOf(TsvData(e, cat).value) == Ok(TsvFields(e, cat))
  {
    TsvDataOk(e, cat);
    TsvTexts(e, cat);
    var vs := TsvData(e, cat).value;
    var r := TextsOf(vs).value;
    var fs := TsvFields(e, cat);
    assert |r| == |fs|;
    forall i | 0 <= i < |r| ensures r[i] == fs[i] {
      assert r[i] == vs[i].s;
    }
    assert r == fs;
  }

  /** Joining two leading parts before a non-empty rest. */
  lemma JoinTwo(sep: string, a: string, b: string, rest: seq<string>)
    requires |rest| >= 1
    ensures Join(sep, [a, b] + rest) == a + sep + b + sep + Join(sep, rest)
  {
    var parts := [a, b] + rest;
    assert parts[1..] == [b] + rest && ([b] + rest)[1..] == rest;
  }

  /** `str(v)` has a tab only when `v` is text holding one. */
  lemma PyStrTabFree(v: Value)
    requires v.Text? ==> '\t' !in v.s
    ensures '\t' !in PyStr(v)
  {
    if v.Int? {
      var r := IntToDecimal(v.i);
      assert forall k :: 0 <= k < |r| ==> r[k] != '\t';
    }
  }

  /** A text field with no tab inside. */
  predicate TabFree(e: Entry, key: string) {
    key in e && e[key].Text? ==> '\t' !in e[key].s
  }

  /**
   * With no tab inside the host IP or the entry's text fields, splitting a TSV line on tabs
   * gives back its columns: 7 for an auth entry, 6 for an admin entry.
   */
  lemma TsvColumns(ctx: Context, e: Entry, cat: Category)
    requires TsvReady(e, cat)
    requires '\t' !in ctx.hostIp
    requires TabFree(e, "host") && TabFree(e, "action") && TabFree(e, "description")
    requires TabFree(e, "ip") && TabFree(e, "factor") && TabFree(e, "result") && TabFree(e, "integration")
    ensures LogToTsv(ctx, e, cat).Ok?
    ensures Split(LogToTsv(ctx, e, cat).value, '\t') ==
      [TsvStamp(ctx, e) + " " + ctx.hostIp, "duo_" + cat.Name()] + TsvFields(e, cat)
    ensures |Split(LogToTsv(ctx, e, cat).value, '\t')| == if cat.AuthLog? then 7 else 6
  {
    TsvLine(ctx, e, cat);
    TsvPartsTabFree(ctx, e, cat);
    SplitJoin([TsvStamp(ctx, e) + " " + ctx.hostIp, "duo_" + cat.Name()] + TsvFields(e, cat), '\t');
  }

  /** Under the premises of TsvColumns, no column holds a tab. */
  lemma TsvPartsTabFree(ctx: Context, e: Entry, cat: Category)
    requires TsvReady(e, cat)
    requires '\t' !in ctx.hostIp
    requires TabFree(e, "host") && TabFree(e, "action") && TabFree(e, "description")
    requires TabFree(e, "ip") && TabFree(e, "factor") && TabFree(e, "result") && TabFree(e, "integration")
    ensures var parts := [TsvStamp(ctx, e) + " " + ctx.hostIp, "duo_" + cat.Name()] + TsvFields(e, cat);
      forall i :: 0 <= i < |parts| ==> '\t' !in parts[i]
  {
    TsvFieldsTabFree(e, cat);
    var head := TsvStamp(ctx, e) + " " + ctx.hostIp;
    assert '\t' !in head;
    assert '\t' !in "duo_" + cat.Name();
  }

  /** Under the premises of TsvColumns, no field after the tag holds a tab. */
  lemma TsvFieldsTabFree(e: Entry, cat: Category)
    requires TsvReady(e, cat)
    requires TabFree(e, "host") && TabFree(e, "action") && TabFree(e, "description")
    requires TabFree(e, "ip") && TabFree(e, "factor") && TabFree(e, "result") && TabFree(e, "integration")
    ensures forall i :: 0 <= i < |TsvFields(e, cat)| ==> '\t' !in TsvFields(e, cat)[i]
  {
    RenderUserTabFree(e["username"]);
    PyStrTabFree(GetOrNone(e, "description"));
  }

  /** A rendered username holds no tab. */
  lemma RenderUserTabFree(v: Value)
    ensures '\t' !in RenderUser(v)
  {
    var user := RenderUser(v);
    RenderUserPrintable(v);
    forall k | 0 <= k < |user| ensures user[k] != '\t' {
      assert Printable(user[k]);
    }
  }

  /**
   * log_event: with LOG_METHOD "cef" or "tsv" an entry yields a line exactly when it holds what
   * that formatter reads; with any other method it yields nothing and never raises.
   */
  lemma LogEventOk(ctx: Context, e: Entry, cat: Category)
    ensures ctx.cfg.logMethod == "cef" ==>
      (LogEvent(ctx, e, cat).Ok? <==> CefReady(e, cat)) && (CefReady(e, cat) ==> LogEvent(ctx, e, cat) == Ok(Some(LogToCef(ctx, e, cat).value)))
    ensures ctx.cfg.logMethod == "tsv" ==>
      (LogEvent(ctx, e, cat).Ok? <==> TsvReady(e, cat)) && (TsvReady(e, cat) ==> LogEvent(ctx, e, cat) == Ok(Some(LogToTsv(ctx, e, cat).value)))
    ensures ctx.cfg.logMethod != "cef" && ctx.cfg.logMethod != "tsv" ==> LogEvent(ctx, e, cat) == Ok(None)
  {
    CefOk(ctx, e, cat);
    TsvOk(ctx, e, cat);
  }
}
