/**
 * The Python 2 values an audit-log entry holds, and the conversions the formatters apply to them:
 * `str(v)`, `repr(v)`, decimal rendering of integers, and the username rendering
 * `repr(v).lstrip("u").strip("'")`.
 */
module PyValues {
  import opened Strings

  /** A field value decoded from the API: a byte or unicode string, an integer, a boolean, or None. */
  datatype Value = Text(s: string, unicode: bool) | Int(i: int) | Bool(b: bool) | NoneValue

  function DigitChar(d: int): (ch: char)
    requires 0 <= d < 10
    ensures IsDigit(ch)
  {
    ('0' as int + d) as char
  }

  /** Decimal digits of a natural number, most significant first, without leading zeros. */
  function NatToDecimal(n: nat): (r: string)
    ensures |r| >= 1
    ensures forall k :: 0 <= k < |r| ==> IsDigit(r[k])
    ensures r[0] == '0' ==> n == 0
  {
    if n < 10 then [DigitChar(n)] else NatToDecimal(n / 10) + [DigitChar(n % 10)]
  }

  /** `str(i)` for an integer: an optional minus sign and the decimal digits. */
  function IntToDecimal(i: int): (r: string)
    ensures |r| >= 1
    ensures (r[0] == '-') == (i < 0)
    ensures forall k :: 0 < k < |r| ==> IsDigit(r[k])
  {
    if i < 0 then "-" + NatToDecimal(-i) else NatToDecimal(i)
  }

  function DigitValue(ch: char): nat
    requires IsDigit(ch)
  {
    ch as int - '0' as int
  }

  /** The number a string of decimal digits denotes. */
  function DecimalValue(s: string): nat
    requires forall k :: 0 <= k < |s| ==> IsDigit(s[k])
  {
    if |s| == 0 then 0 else DecimalValue(s[..|s| - 1]) * 10 + DigitValue(s[|s| - 1])
  }

  /** Reading back the decimal rendering of a natural number gives the number. */
  lemma {:induction false} DecimalRoundTrip(n: nat)
    ensures DecimalValue(NatToDecimal(n)) == n
  {
    var r := NatToDecimal(n);
    if n >= 10 {
      DecimalRoundTrip(n / 10);
      assert r[..|r| - 1] == NatToDecimal(n / 10);
    }
  }

  /** Multiplying a positive number by ten appends one zero digit. */
  lemma NatTimesTen(n: nat)
    requires n > 0
    ensures NatToDecimal(n * 10) == NatToDecimal(n) + "0"
  {
    assert (n * 10) / 10 == n && (n * 10) % 10 == 0;
  }

  /**
   * The conversion to milliseconds, `str(t * 1000)`, is the decimal rendering of `t`
   * followed by three zeros, for every non-zero `t` (for `t == 0` it is just "0").
   */
  lemma {:induction false} MillisDecimal(t: int)
    requires t != 0
    ensures IntToDecimal(t * 1000) == IntToDecimal(t) + "000"
  {
    var n: nat := if t < 0 then -t else t;
    NatTimesTen(n);
    NatTimesTen(n * 10);
    NatTimesTen(n * 10 * 10);
    assert n * 10 * 10 * 10 == n * 1000;
    assert NatToDecimal(n * 1000) == NatToDecimal(n) + "000";
    if t < 0 {
      assert -(t * 1000) == n * 1000;
    }
  }

  /** `str(v)`. */
  function PyStr(v: Value): (r: string)
    ensures v.Text? ==> r == v.s
    ensures !v.Text? ==> |r| >= 1 && AllPrintable(r) && ' ' !in r
  {
    match v
    case Text(s, _) => s
    case Int(i) => IntToDecimal(i)
    case Bool(b) => if b then "True" else "False"
    case NoneValue => "None"
  }

  /**
   * The words `str` gives for non-text values: "None", "True" or "False", and an int's decimal
   * digits, which read back as the int (after a '-' when it is negative).
   */
  lemma PyStrWords(v: Value)
    ensures v.NoneValue? ==> PyStr(v) == "None"
    ensures v.Bool? ==> PyStr(v) == (if v.b then "True" else "False")
    ensures v.Int? && v.i >= 0 ==>
      (forall k :: 0 <= k < |PyStr(v)| ==> IsDigit(PyStr(v)[k])) && DecimalValue(PyStr(v)) == v.i
    ensures v.Int? && v.i < 0 ==>
      && PyStr(v)[0] == '-' && (forall k :: 1 <= k < |PyStr(v)| ==> IsDigit(PyStr(v)[k]))
      && DecimalValue(PyStr(v)[1..]) == -v.i
  {
    if v.Int? && v.i >= 0 {
      DecimalRoundTrip(v.i);
    } else if v.Int? {
      DecimalRoundTrip(-v.i);
      assert PyStr(v)[1..] == NatToDecimal(-v.i);
    }
  }

  /** Characters `repr` writes as themselves: ASCII space to tilde. */
  predicate Printable(ch: char) {
    ' ' <= ch <= '~'
  }

  function HexDigit(d: int): (ch: char)
    requires 0 <= d < 16
    ensures Printable(ch)
  {
    if d < 10 then DigitChar(d) else ('a' as int + d - 10) as char
  }

  /** The low `width` hexadecimal digits of `n`, lower case, zero-padded. */
  function Hex(n: nat, width: nat): (r: string)
    ensures |r| == width
    ensures forall k :: 0 <= k < |r| ==> Printable(r[k])
  {
    if width == 0 then "" else Hex(n / 16, width - 1) + [HexDigit(n % 16)]
  }

  /** The quote `repr` picks: a double quote only when the text has a single quote and no double quote. */
  function QuoteFor(s: string): char
  {
    if '\'' in s && '"' !in s then '"' else '\''
  }

  /** How `repr` writes one character inside quotes `q`. */
  function EscapeChar(ch: char, q: char): (r: string)
    requires Printable(q)
    ensures |r| >= 1
    ensures forall k :: 0 <= k < |r| ==> Printable(r[k])
  {
    if ch == q || ch == '\\' then ['\\', ch]
    else if ch == '\t' then "\\t"
    else if ch == '\n' then "\\n"
    else if ch == '\r' then "\\r"
    else if Printable(ch) then [ch]
    else if ch as int < 0x100 then "\\x" + Hex(ch as int, 2)
    else if ch as int < 0x1_0000 then "\\u" + Hex(ch as int, 4)
    else "\\U" + Hex(ch as int, 8)
  }

  /** The body of a string `repr`: every character escaped. */
  function Escape(s: string, q: char): (r: string)
    requires Printable(q)
    ensures |r| >= |s|
    ensures forall k :: 0 <= k < |r| ==> Printable(r[k])
  {
    if |s| == 0 then "" else EscapeChar(s[0], q) + Escape(s[1..], q)
  }

  /** `repr(v)` in Python 2: quoted and escaped text (with a `u` marker for unicode), digits, `True`, `None`. */
  function Repr(v: Value): (r: string)
    ensures AllPrintable(r)
  {
    match v
    case Text(s, unicode) =>
      var q := QuoteFor(s);
      (if unicode then "u" else "") + [q] + Escape(s, q) + [q]
    case _ => PyStr(v)
  }

  /**
   * `repr(v).lstrip("u").strip("'")`, how both formatters render a username: it never begins or
   * ends with a single quote.
   */
  function RenderUser(v: Value): (r: string)
    ensures r == [] || (r[0] != '\'' && r[|r| - 1] != '\'')
  {
    Strip(LStrip(Repr(v), 'u'), '\'')
  }

  predicate AllPrintable(s: string) {
    forall k :: 0 <= k < |s| ==> Printable(s[k])
  }

  lemma LStripPrintable(s: string, c: char)
    requires AllPrintable(s)
    ensures AllPrintable(LStrip(s, c))
  {
    var r := LStrip(s, c);
    LStripSuffix(s, c);
    forall k | 0 <= k < |r| ensures Printable(r[k]) {
      assert r[k] == s[|s| - |r| + k];
    }
  }

  lemma StripPrintable(s: string, c: char)
    requires AllPrintable(s)
    ensures AllPrintable(Strip(s, c))
  {
    var r := Strip(s, c);
    var l := |s| - |LStrip(s, c)|;
    StripInfix(s, c);
    forall k | 0 <= k < |r| ensures Printable(r[k]) {
      assert r[k] == s[l + k];
    }
  }

  /** A rendered username holds only printable ASCII: control characters such as a tab come out escaped. */
  lemma RenderUserPrintable(v: Value)
    ensures AllPrintable(RenderUser(v))
  {
    var unmarked := LStrip(Repr(v), 'u');
    LStripPrintable(Repr(v), 'u');
    StripPrintable(unmarked, '\'');
  }

  /** The text with every backslash doubled: what `repr` makes of a plain domain\user name. */
  function Backslashed(s: string): (r: string)
  {
    if |s| == 0 then "" else (if s[0] == '\\' then "\\\\" else [s[0]]) + Backslashed(s[1..])
  }

  /** Text `repr` quotes with `q` and escapes no character of except backslashes. */
  predicate PlainName(s: string, q: char) {
    forall k :: 0 <= k < |s| ==> Printable(s[k]) && s[k] != q
  }

  lemma {:induction false} EscapePlain(s: string, q: char)
    requires Printable(q) && q != '\\' && PlainName(s, q)
    ensures Escape(s, q) == Backslashed(s)
    ensures q !in Backslashed(s)
  {
    if |s| > 0 {
      EscapePlain(s[1..], q);
    }
  }

  lemma {:induction false} BackslashedConcat(a: string, b: string)
    ensures Backslashed(a + b) == Backslashed(a) + Backslashed(b)
  {
    if |a| > 0 {
      BackslashedConcat(a[1..], b);
      assert (a + b)[0] == a[0];
      assert (a + b)[1..] == a[1..] + b;
    } else {
      assert a + b == b;
    }
  }

  /** Stripping the quotes off `'b'` for a quote-free `b` leaves exactly `b`. */
  lemma StripQuoted(b: string)
    requires '\'' !in b
    ensures Strip(['\''] + b + ['\''], '\'') == b
  {
    var s := ['\''] + b + ['\''];
    assert s[1..] == b + ['\''];
    if |b| == 0 {
      assert LStrip(s, '\'') == LStrip(s[1..], '\'') == LStrip(['\''], '\'') == "";
    } else {
      assert b[0] != '\'' && b[|b| - 1] != '\'';
      assert LStrip(s, '\'') == b + ['\''];
      assert (b + ['\''])[..|b|] == b;
      assert RStrip(b + ['\''], '\'') == RStrip(b, '\'') == b;
    }
  }

  /** Dropping the `u` marker leaves the quoted, escaped text, for byte and unicode strings alike. */
  lemma Unmarked(s: string, unicode: bool)
    ensures LStrip(Repr(Text(s, unicode)), 'u') == [QuoteFor(s)] + Escape(s, QuoteFor(s)) + [QuoteFor(s)]
  {
    var q := QuoteFor(s);
    var body := [q] + Escape(s, q) + [q];
    assert body[0] != 'u';
    assert LStrip(body, 'u') == body;
    if unicode {
      var marked := Repr(Text(s, true));
      assert marked == ['u'] + body;
      assert marked[1..] == body;
      assert LStrip(marked, 'u') == LStrip(body, 'u');
    } else {
      assert Repr(Text(s, false)) == body;
    }
  }

  /**
   * A username of printable ASCII without single quotes renders as itself with every backslash
   * doubled, whether it was a byte string or a unicode string: the `u` marker and the quotes go.
   */
  lemma RenderPlainUser(s: string, unicode: bool)
    requires PlainName(s, '\'')
    ensures RenderUser(Text(s, unicode)) == Backslashed(s)
    ensures '\\' !in s ==> RenderUser(Text(s, unicode)) == s
  {
    EscapePlain(s, '\'');
    assert QuoteFor(s) == '\'';
    Unmarked(s, unicode);
    StripQuoted(Backslashed(s));
    if '\\' !in s {
      BackslashedFree(s);
    }
  }

  lemma {:induction false} BackslashedFree(s: string)
    requires '\\' !in s
    ensures Backslashed(s) == s
  {
    if |s| > 0 {
      BackslashedFree(s[1..]);
      assert [s[0]] + s[1..] == s;
    }
  }

  /** The unicode marker never survives: a unicode name renders like the byte string with the same text. */
  lemma UnicodeMarkerRemoved(s: string)
    ensures RenderUser(Text(s, true)) == RenderUser(Text(s, false))
  {
    Unmarked(s, true);
    Unmarked(s, false);
  }

  /** A Windows-style `domain\user` name keeps its backslash, doubled as `repr` escapes it. */
  lemma DomainUser(domain: string, user: string, unicode: bool)
    requires PlainName(domain, '\'') && '\\' !in domain
    requires PlainName(user, '\'') && '\\' !in user
    ensures RenderUser(Text(domain + "\\" + user, unicode)) == domain + "\\\\" + user
  {
    var name := domain + "\\" + user;
    assert PlainName(name, '\'') by {
      forall k | 0 <= k < |name| ensures Printable(name[k]) && name[k] != '\'' {
        if k < |domain| {
          assert name[k] == domain[k];
        } else if k > |domain| {
          assert name[k] == user[k - |domain| - 1];
        }
      }
    }
    RenderPlainUser(name, unicode);
    BackslashedConcat(domain + "\\", user);
    BackslashedConcat(domain, "\\");
    BackslashedFree(domain);
    BackslashedFree(user);
    assert Backslashed("\\") == "\\\\";
  }

  /**
   * A name with an apostrophe (and no double quote or backslash) is quoted with double quotes
   * by `repr`; stripping single quotes leaves those double quotes in the output.
   */
  lemma ApostropheUser(s: string, unicode: bool)
    requires '\'' in s
    requires PlainName(s, '"') && '\\' !in s
    ensures RenderUser(Text(s, unicode)) == "\"" + s + "\""
  {
    assert QuoteFor(s) == '"';
    EscapePlain(s, '"');
    BackslashedFree(s);
    Unmarked(s, unicode);
    var quoted := "\"" + s + "\"";
    assert quoted[0] == '"' && quoted[|quoted| - 1] == '"';
    assert LStrip(quoted, '\'') == quoted;
    assert RStrip(quoted, '\'') == quoted;
  }
}
