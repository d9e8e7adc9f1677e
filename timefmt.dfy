/**
 * The broken-down local time the grabber formats with `strftime("%b %d %H:%M:%S")` (C locale),
 * the "Mmm dd hh:mm:ss" timestamp of a syslog line, and its parser.
 */
module TimeFormat {
  import opened Wrappers
  import opened Strings

  datatype DateTime = DateTime(month: int, day: int, hour: int, minute: int, second: int) {
    /** The ranges `time.localtime` produces (a second may be 60 or 61 for leap seconds). */
    predicate Valid() {
      1 <= month <= 12 && 1 <= day <= 31 && 0 <= hour < 24 && 0 <= minute < 60 && 0 <= second <= 61
    }
  }

  type LocalTime = t: DateTime | t.Valid() witness DateTime(1, 1, 0, 0, 0)

  const MonthNames: seq<string> :=
    ["Jan", "Feb", "Mar", "Apr", "May", "Jun", "Jul", "Aug", "Sep", "Oct", "Nov", "Dec"]

  /** `%b`: the abbreviated month name. */
  function MonthAbbrev(month: int): (r: string)
    requires 1 <= month <= 12
    ensures |r| == 3
  {
    MonthNames[month - 1]
  }

  /** Inverse of MonthAbbrev. */
  function MonthNumber(name: string): Option<int>
  {
    if name == "Jan" then Some(1) else if name == "Feb" then Some(2) else if name == "Mar" then Some(3)
    else if name == "Apr" then Some(4) else if name == "May" then Some(5) else if name == "Jun" then Some(6)
    else if name == "Jul" then Some(7) else if name == "Aug" then Some(8) else if name == "Sep" then Some(9)
    else if name == "Oct" then Some(10) else if name == "Nov" then Some(11) else if name == "Dec" then Some(12)
    else None
  }

  /** `%d`, `%H`, `%M`, `%S`: two decimal digits, zero-padded. */
  function Pad2(n: int): (r: string)
    requires 0 <= n < 100
    ensures |r| == 2 && IsDigit(r[0]) && IsDigit(r[1])
  {
    [('0' as int + n / 10) as char, ('0' as int + n % 10) as char]
  }

  function Unpad2(s: string): int
    requires |s| == 2 && IsDigit(s[0]) && IsDigit(s[1])
  {
    (s[0] as int - '0' as int) * 10 + (s[1] as int - '0' as int)
  }

  /** `strftime("%b %d %H:%M:%S")`: fifteen characters, "Mmm dd hh:mm:ss". */
  function SyslogTime(t: LocalTime): (r: string)
    ensures |r| == 15
    ensures r[3] == ' ' && r[6] == ' ' && r[9] == ':' && r[12] == ':'
    ensures '\t' !in r
  {
    var r := MonthAbbrev(t.month) + " " + Pad2(t.day) + " " + Pad2(t.hour) + ":" + Pad2(t.minute) + ":" + Pad2(t.second);
    assert forall k :: 0 <= k < 3 ==> r[k] == MonthAbbrev(t.month)[k];
    assert forall k :: 3 <= k < 15 ==> r[k] == ' ' || r[k] == ':' || IsDigit(r[k]);
    r
  }

  /** Reads a "Mmm dd hh:mm:ss" timestamp back. */
  function ParseSyslogTime(s: string): Option<DateTime>
  {
    if |s| != 15 || s[3] != ' ' || s[6] != ' ' || s[9] != ':' || s[12] != ':' then None
    else if !(IsDigit(s[4]) && IsDigit(s[5]) && IsDigit(s[7]) && IsDigit(s[8])
              && IsDigit(s[10]) && IsDigit(s[11]) && IsDigit(s[13]) && IsDigit(s[14])) then None
    else match MonthNumber(s[..3])
      case None => None
      case Some(m) => Some(DateTime(m, Unpad2(s[4..6]), Unpad2(s[7..9]), Unpad2(s[10..12]), Unpad2(s[13..15])))
  }

  lemma MonthRoundTrip(month: int)
    requires 1 <= month <= 12
    ensures MonthNumber(MonthAbbrev(month)) == Some(month)
  {
  }

  /** The formatted timestamp determines the time it was made from. */
  lemma SyslogTimeRoundTrip(t: LocalTime)
    ensures ParseSyslogTime(SyslogTime(t)) == Some(t)
  {
    var r := SyslogTime(t);
    assert r[..3] == MonthAbbrev(t.month);
    MonthRoundTrip(t.month);
    assert r[4..6] == Pad2(t.day);
    assert r[7..9] == Pad2(t.hour);
    assert r[10..12] == Pad2(t.minute);
    assert r[13..15] == Pad2(t.second);
  }
}
